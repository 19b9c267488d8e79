/**
 The runtime loop as a state machine, run against an environment that offers packets, takes packets out
 of the sink, closes either end, cancels, pauses, resumes and holds the graph lock at any moment. One
 action is what happens between two points where the loop can be overtaken; the biased `select!` looks
 at cancellation, then at the pause flag, then at the source, one action each. Having found nothing it
 parks, and once woken looks again from the start.
 */
module ExecutionLoops {
  import opened Wrappers
  import opened Packets
  import opened Modules
  import opened Digraphs
  import opened Listings
  import opened Walks
  import opened Lifecycles

  datatype Event = Initialized(node: NodeId) | Processed(hop: Hop) | ShutDown(node: NodeId)

  datatype Phase =
    | Starting
    | AtTop                                      // waits until resumed
    | LookingAtCancel
    | LookingAtPause
    | LookingAtSource
    | Parked                                     // found nothing to do; whatever wakes it, it looks again
    | Holding(packet: Packet, draining: bool)    // taken from the source, waits for the graph lock
    | Running(packet: Packet, draining: bool)    // in the graph, with the lock; nothing interrupts this
    | Emitting(packet: Packet, draining: bool)   // out of the graph, waits for room in the sink
    | Draining                                   // about to see whether the source still holds something
    | Closing                                    // about to shut the nodes down
    | Ended(result: Result<(), ModuleError>)
  {
    /** A packet is taken and not yet out of the graph. */
    predicate InHand() { Holding? || Running? }
  }

  /** A channel holds at least one packet. */
  type Capacity = n: nat | n >= 1 witness 1

  /**
   What stays the same: the graph, where packets enter it, what its modules had been handed, and how
   many packets the sink can hold.
   */
  datatype Setting = Setting(net: Net, entry: NodeId, handed: Logs, room: Capacity)

  /**
   What has happened: what the modules have been handed, every lifecycle event in order, the packets
   offered to the source, taken from it, and run through the graph, the nodes initialized and shut
   down, how many packets had been offered when the drain found the source empty, whether the drain or
   the closing was cut short by its time-out, and whether an output was lost.
   */
  datatype Past = Past(
    handed: Logs, log: seq<Event>,
    sent: seq<Packet>, taken: seq<Packet>, served: seq<Packet>,
    ups: seq<NodeId>, downs: seq<NodeId>,
    drained: Option<nat>, drainCut: bool, closeCut: bool, lost: bool)

  /** `locked` says that somebody else holds the graph lock. */
  datatype Flags = Flags(
    sourceOpen: bool, sinkOpen: bool, paused: bool, handleAlive: bool, cancelled: bool, locked: bool)

  const INITIALLY := Flags(true, true, false, true, false, false)

  /** `sink` is all that was ever put into the sink; its last `buffered` packets are still in there. */
  datatype Loop = Loop(
    phase: Phase, source: seq<Packet>, sink: seq<Packet>, buffered: nat, flags: Flags, past: Past)

  function Fresh(c: Setting): Loop {
    Loop(Starting, [], [], 0, INITIALLY,
         Past(c.handed, [], [], [], [], [], [], None, false, false, false))
  }

  // ----- Running one packet -----------------------------------------------

  /** The packet's run through the graph comes to an end. */
  ghost predicate Settles(c: Setting, handed: Logs, p: Packet) {
    exists fuel: nat :: !Execute(c.net, handed, c.entry, p, fuel).ending.StillRunning?
  }

  ghost function RunOf(c: Setting, handed: Logs, p: Packet): Run {
    if Settles(c, handed, p) then
      var fuel: nat :| !Execute(c.net, handed, c.entry, p, fuel).ending.StillRunning?;
      Execute(c.net, handed, c.entry, p, fuel)
    else Run(StillRunning(c.entry, p), handed, [])
  }

  /** The packet's run ends at an exit. */
  ghost predicate Exits(c: Setting, handed: Logs, p: Packet) {
    Settles(c, handed, p) && RunOf(c, handed, p).ending.Exited?
  }

  /** It is the sequential execution, whatever fuel shows its end. */
  lemma RunIsUnique(c: Setting, handed: Logs, p: Packet, fuel: nat)
    requires !Execute(c.net, handed, c.entry, p, fuel).ending.StillRunning?
    ensures Settles(c, handed, p) && RunOf(c, handed, p) == Execute(c.net, handed, c.entry, p, fuel)
  {
    assert Settles(c, handed, p);
    var other: nat :| !Execute(c.net, handed, c.entry, p, other).ending.StillRunning?
                      && RunOf(c, handed, p) == Execute(c.net, handed, c.entry, p, other);
    if c.entry in c.net.entries {
      if fuel <= other { MoreFuel(c.net, handed, c.entry, p, fuel, other); }
      else { assert other <= fuel; MoreFuel(c.net, handed, c.entry, p, other, fuel); }
    }
  }

  // ----- Steps ------------------------------------------------------------

  /** What the environment may do at any moment. */
  datatype Signal =
    | Offer(packet: Packet) | CloseSource
    | TakeOut | CloseSink
    | Cancel | Pause | Resume | DropHandle
    | LockGraph | UnlockGraph
    | Wake                                       // a parked loop is polled without a reason

  datatype Step =
    | Outside(signal: Signal)
    | Begin(order: seq<NodeId>)   // initialize the nodes in this order
    | Go                          // whatever the phase calls for
    | RunPacket                   // run the packet in hand through the graph
    | GiveUp                      // a time-out while draining or shutting down
    | Close(order: seq<NodeId>)   // shut the nodes down in this order

  ghost predicate Enabled(c: Setting, s: Loop, a: Step) {
    match a
    case Outside(signal) => Possible(s, signal)
    case Begin(order) => s.phase.Starting? && !s.flags.locked && Lists(order, c.net.modules.Keys)
    case Go => CanGo(c.room, s)
    case RunPacket => s.phase.Running? && Settles(c, s.past.handed, s.phase.packet)
    case GiveUp => s.phase.Closing? || ((s.phase.Holding? || s.phase.Emitting?) && s.phase.draining)
    case Close(order) => s.phase.Closing? && !s.flags.locked && Lists(order, c.net.modules.Keys)
  }

  predicate Possible(s: Loop, signal: Signal) {
    match signal
    case Offer(_) => s.flags.sourceOpen
    case Pause => s.flags.handleAlive
    case Resume => s.flags.handleAlive
    case TakeOut => s.flags.sinkOpen && s.buffered > 0
    case LockGraph => !s.flags.locked && !s.phase.Running?
    case UnlockGraph => s.flags.locked
    case Wake => s.phase.Parked?
    case _ => true
  }

  /** The sink is open and holds as much as it can. */
  predicate SinkFull(room: Capacity, s: Loop) { s.flags.sinkOpen && s.buffered >= room }

  predicate CanGo(room: Capacity, s: Loop) {
    match s.phase
    case AtTop => !s.flags.paused || !s.flags.handleAlive
    case Parked => s.source != [] || !s.flags.sourceOpen || s.flags.cancelled || s.flags.paused
    case Holding(_, _) => !s.flags.locked
    case Emitting(_, _) => !SinkFull(room, s)
    case _ => s.phase.LookingAtCancel? || s.phase.LookingAtPause? || s.phase.LookingAtSource? || s.phase.Draining?
  }

  function Ups(order: seq<NodeId>): seq<Event> {
    seq(|order|, i requires 0 <= i < |order| => Initialized(order[i]))
  }

  function Downs(order: seq<NodeId>): seq<Event> {
    seq(|order|, i requires 0 <= i < |order| => ShutDown(order[i]))
  }

  function CallsOf(hops: seq<Hop>): seq<Event> {
    seq(|hops|, i requires 0 <= i < |hops| => Processed(hops[i]))
  }

  /** Initializations, then calls, then shutdowns. */
  function History(ups: seq<NodeId>, hops: seq<Hop>, downs: seq<NodeId>): seq<Event> {
    Ups(ups) + CallsOf(hops) + Downs(downs)
  }

  lemma HistoryGrows(ups: seq<NodeId>, hops: seq<Hop>, more: seq<Hop>, downs: seq<NodeId>)
    ensures History([], [], []) == []
    ensures History(ups, [], []) == Ups(ups)
    ensures History(ups, hops + more, []) == History(ups, hops, []) + CallsOf(more)
    ensures History(ups, hops, downs) == History(ups, hops, []) + Downs(downs)
  {
    assert CallsOf(hops + more) == CallsOf(hops) + CallsOf(more);
  }

  /** What a finished run leaves for the sink. */
  function Output(ending: Ending): seq<Packet> {
    if ending.Exited? then [ending.packet] else []
  }

  function Back(draining: bool): Phase { if draining then Draining else AtTop }

  ghost function Apply(c: Setting, s: Loop, a: Step): Loop
    requires Enabled(c, s, a)
  {
    match a
    case Outside(signal) => Signalled(s, signal)
    case Begin(order) =>
      var failure := FirstInitError(c.net.modules, order);
      var ups := Attempted(c.net.modules, order);
      s.(phase := if failure.Some? then Ended(Err(failure.value)) else AtTop,
         past := s.past.(ups := ups, log := s.past.log + Ups(ups)))
    case Go => Gone(c.room, s)
    case RunPacket => Served(s, RunOf(c, s.past.handed, s.phase.packet))
    case GiveUp =>
      if s.phase.Closing? then s.(phase := Ended(Ok(())), past := s.past.(closeCut := true))
      else s.(phase := Closing, past := s.past.(drainCut := true, lost := true))
    case Close(order) =>
      s.(phase := Ended(Ok(())), past := s.past.(downs := order, log := s.past.log + Downs(order)))
  }

  function Signalled(s: Loop, signal: Signal): Loop {
    match signal
    case Offer(p) => s.(source := s.source + [p], past := s.past.(sent := s.past.sent + [p]))
    case CloseSource => s.(flags := s.flags.(sourceOpen := false))
    case CloseSink => s.(flags := s.flags.(sinkOpen := false))
    case Cancel => s.(flags := s.flags.(cancelled := true))
    case Pause => s.(flags := s.flags.(paused := true))
    case Resume => s.(flags := s.flags.(paused := false))
    case DropHandle => s.(flags := s.flags.(handleAlive := false))
    case TakeOut => if s.buffered > 0 then s.(buffered := s.buffered - 1) else s
    case LockGraph => s.(flags := s.flags.(locked := true))
    case UnlockGraph => s.(flags := s.flags.(locked := false))
    case Wake => if s.phase.Parked? then s.(phase := LookingAtCancel) else s
  }

  function Gone(room: Capacity, s: Loop): Loop
    requires CanGo(room, s)
  {
    match s.phase
    case AtTop => s.(phase := LookingAtCancel)
    case LookingAtCancel => s.(phase := if s.flags.cancelled then Draining else LookingAtPause)
    case LookingAtPause => s.(phase := if s.flags.paused then AtTop else LookingAtSource)
    case LookingAtSource =>
      if s.source != [] then Took(s, false)
      else s.(phase := if s.flags.sourceOpen then Parked else Draining)
    case Parked => s.(phase := LookingAtCancel)
    case Holding(p, draining) => s.(phase := Running(p, draining))
    case Emitting(p, draining) =>
      if s.flags.sinkOpen then s.(phase := Back(draining), sink := s.sink + [p], buffered := s.buffered + 1)
      else s.(phase := if draining then Closing else Draining, past := s.past.(lost := true))
    case Draining =>
      if s.source != [] then Took(s, true)
      else s.(phase := Closing, past := s.past.(drained := Some(|s.past.sent|)))
  }

  function Served(s: Loop, run: Run): Loop
    requires s.phase.Running?
  {
    var d := s.phase.draining;
    s.(phase := if run.ending.Exited? then Emitting(run.ending.packet, d) else Back(d),
       past := s.past.(handed := run.handed, served := s.past.served + [s.phase.packet],
                       log := s.past.log + CallsOf(run.hops)))
  }

  function Took(s: Loop, draining: bool): Loop
    requires s.source != []
  {
    s.(phase := Holding(s.source[0], draining), source := s.source[1..],
       past := s.past.(taken := s.past.taken + [s.source[0]]))
  }

  /** The state a schedule leads to, if each of its steps is enabled when its turn comes. */
  ghost function Play(c: Setting, s: Loop, schedule: seq<Step>): Option<Loop>
    decreases |schedule|
  {
    if schedule == [] then Some(s)
    else if Enabled(c, s, schedule[0]) then Play(c, Apply(c, s, schedule[0]), schedule[1..]) else None
  }

  lemma PlayCons(c: Setting, s: Loop, a: Step, rest: seq<Step>)
    requires Enabled(c, s, a)
    ensures Play(c, s, [a] + rest) == Play(c, Apply(c, s, a), rest)
  {
    assert ([a] + rest)[1..] == rest;
  }

  lemma {:induction false} PlayJoin(c: Setting, s: Loop, first: seq<Step>, rest: seq<Step>)
    requires Play(c, s, first).Some?
    ensures Play(c, s, first + rest) == Play(c, Play(c, s, first).value, rest)
    decreases |first|
  {
    if first == [] {
      assert first + rest == rest;
    } else {
      assert (first + rest)[1..] == first[1..] + rest;
      PlayJoin(c, Apply(c, s, first[0]), first[1..], rest);
    }
  }

  // ----- Running packets one after another --------------------------------

  /** What a list of packets, run one by one, hands to the modules, yields, and calls. */
  datatype Tally = Tally(handed: Logs, outputs: seq<Packet>, hops: seq<Hop>)

  ghost function Fold(c: Setting, packets: seq<Packet>): Tally {
    if packets == [] then Tally(c.handed, [], [])
    else
      var last := |packets| - 1;
      var before := Fold(c, packets[..last]);
      var run := RunOf(c, before.handed, packets[last]);
      Tally(run.handed, before.outputs + Output(run.ending), before.hops + run.hops)
  }

  lemma FoldSnoc(c: Setting, packets: seq<Packet>, p: Packet)
    ensures var before := Fold(c, packets);
            var run := RunOf(c, before.handed, p);
            Fold(c, packets + [p]) == Tally(run.handed, before.outputs + Output(run.ending), before.hops + run.hops)
  {
    assert (packets + [p])[..|packets|] == packets;
  }

  // ----- The invariant ----------------------------------------------------

  predicate Up(s: Loop) { !s.phase.Starting? && !(s.phase.Ended? && s.phase.result.Err?) }

  /** Packets are taken in order, and each is served once. */
  ghost predicate Taking(s: Loop) {
    && s.past.taken + s.source == s.past.sent
    && s.past.served <= s.past.taken
    && (s.phase.InHand() ==> s.past.taken == s.past.served + [s.phase.packet])
    && (!s.phase.InHand() && !s.past.drainCut ==> s.past.taken == s.past.served)
    && (s.past.drainCut ==> s.phase.Closing? || s.phase.Ended?)
    && (s.past.drained.Some? ==>
          && (s.phase.Closing? || s.phase.Ended?)
          && s.past.drained.value <= |s.past.sent|
          && s.past.served == s.past.taken == s.past.sent[..s.past.drained.value])
  }

  function Pending(s: Loop): seq<Packet> { if s.phase.Emitting? then [s.phase.packet] else [] }

  /** What is due has been delivered, or is about to be; after a loss, a prefix of it. */
  ghost predicate Delivers(due: seq<Packet>, sink: seq<Packet>, pending: seq<Packet>, lost: bool) {
    sink <= due && (!lost ==> sink + pending == due)
  }

  ghost predicate Giving(c: Setting, s: Loop) {
    && s.past.handed == Fold(c, s.past.served).handed
    && Delivers(Fold(c, s.past.served).outputs, s.sink, Pending(s), s.past.lost)
  }

  /** Only a time-out or a closed sink loses anything, and only they end the drain early. */
  predicate Excused(s: Loop) {
    && (s.past.lost ==> !s.flags.sinkOpen || (s.past.drainCut && (s.phase.Closing? || s.phase.Ended?)))
    && ((s.phase.Closing? || s.phase.Ended?) && Up(s) ==> s.past.drained.Some? || s.past.lost)
  }

  ghost predicate Logging(c: Setting, s: Loop) {
    && s.past.log == History(s.past.ups, Fold(c, s.past.served).hops, s.past.downs)
    && (Up(s) ==>
          && Lists(s.past.ups, c.net.modules.Keys)
          && forall n :: n in s.past.ups ==> InitError(c.net.modules[n]).None?)
    && (!Up(s) ==> s.past.taken == [] && Distinct(s.past.ups))
    && (s.past.downs != [] ==> s.phase.Ended? && Up(s) && Lists(s.past.downs, c.net.modules.Keys))
  }

  /** A loop that has ended has closed all nodes or had that cut short, or reports why one did not come up. */
  ghost predicate Finishing(c: Setting, s: Loop) {
    && (s.past.closeCut ==> s.phase.Ended? && Up(s) && s.past.downs == [])
    && (s.phase.Ended? && Up(s) && !s.past.closeCut ==> Lists(s.past.downs, c.net.modules.Keys))
    && (s.phase.Ended? && !Up(s) ==> Reports(c, s.past.ups, s.phase.result.error))
  }

  /** The last node attempted failed with this error, and all before it came up. */
  ghost predicate Reports(c: Setting, ups: seq<NodeId>, error: ModuleError) {
    && ups != [] && ups[|ups| - 1] in c.net.modules
    && InitError(c.net.modules[ups[|ups| - 1]]) == Some(error)
    && forall n :: n in ups[..|ups| - 1] ==> n in c.net.modules && InitError(c.net.modules[n]).None?
  }

  ghost predicate Inv(c: Setting, s: Loop) {
    && Taking(s) && Giving(c, s) && Excused(s) && Logging(c, s) && Finishing(c, s)
    && (s.phase.Starting? ==> s.past.ups == [])
  }

  lemma TakingTakes(s: Loop, draining: bool)
    requires Taking(s) && s.source != [] && !s.phase.InHand() && !s.phase.Closing? && !s.phase.Ended?
    ensures Taking(Took(s, draining))
  {
    assert s.past.taken + [s.source[0]] + s.source[1..] == s.past.taken + s.source;
  }

  lemma TakingGoes(room: Capacity, s: Loop)
    requires Taking(s) && CanGo(room, s)
    ensures Taking(Gone(room, s))
  {
    if (s.phase.LookingAtSource? || s.phase.Draining?) && s.source != [] {
      TakingTakes(s, s.phase.Draining?);
    } else if s.phase.Draining? {
      assert s.past.sent[..|s.past.sent|] == s.past.sent == s.past.taken;
    }
  }

  lemma TakingSignal(s: Loop, signal: Signal)
    requires Taking(s) && Possible(s, signal)
    ensures Taking(Signalled(s, signal))
  {
    if signal.Offer? {
      assert s.past.taken + (s.source + [signal.packet]) == s.past.taken + s.source + [signal.packet];
    }
  }

  lemma TakingStep(c: Setting, s: Loop, a: Step)
    requires Taking(s) && Enabled(c, s, a)
    ensures Taking(Apply(c, s, a))
  {
    if a.Go? {
      TakingGoes(c.room, s);
    } else if a.Outside? {
      TakingSignal(s, a.signal);
    }
  }

  /** What steps that do not touch the graph leave alone. */
  predicate SameHistory(s: Loop, s': Loop) {
    && s'.past.log == s.past.log && s'.past.ups == s.past.ups && s'.past.downs == s.past.downs
    && s'.past.served == s.past.served && s'.past.handed == s.past.handed
    && Up(s') == Up(s) && (Up(s) || s'.past.taken == s.past.taken) && (s.phase.Ended? ==> s'.phase.Ended?)
  }

  predicate SameSink(s: Loop, s': Loop) {
    s'.sink == s.sink && (s'.past.lost || (s'.past.lost == s.past.lost && Pending(s') == Pending(s)))
  }

  lemma GoingUndisturbed(room: Capacity, s: Loop)
    requires CanGo(room, s)
    ensures var s' := Gone(room, s);
            SameHistory(s, s') && ((s.phase.Emitting? && s.flags.sinkOpen) || SameSink(s, s'))
  {
  }

  lemma SignalUndisturbed(s: Loop, signal: Signal)
    ensures SameHistory(s, Signalled(s, signal)) && SameSink(s, Signalled(s, signal))
  {
  }

  lemma GivingSame(c: Setting, s: Loop, s': Loop)
    requires Giving(c, s) && SameHistory(s, s') && SameSink(s, s')
    ensures Giving(c, s')
  {
  }

  lemma GivingStep(c: Setting, s: Loop, a: Step)
    requires Giving(c, s) && Enabled(c, s, a)
    requires s.past.lost ==> !s.flags.sinkOpen || s.phase.Closing? || s.phase.Ended?
    ensures Giving(c, Apply(c, s, a))
  {
    var s' := Apply(c, s, a);
    if a.RunPacket? {
      FoldSnoc(c, s.past.served, s.phase.packet);
      RunDelivers(Fold(c, s.past.served).outputs, s.sink, Pending(s'), s.past.lost);
    } else if a.Go? {
      GoingUndisturbed(c.room, s);
      if s.phase.Emitting? && s.flags.sinkOpen {
        assert s.sink + Pending(s) + [] == s.sink + Pending(s);
      } else {
        GivingSame(c, s, s');
      }
    } else if a.Outside? {
      SignalUndisturbed(s, a.signal);
      GivingSame(c, s, s');
    }
  }

  lemma RunDelivers(due: seq<Packet>, sink: seq<Packet>, more: seq<Packet>, lost: bool)
    requires Delivers(due, sink, [], lost)
    ensures Delivers(due + more, sink, more, lost)
  {
    assert sink + [] == sink;
  }

  lemma ExcusedStep(c: Setting, s: Loop, a: Step)
    requires Excused(s) && Enabled(c, s, a) && (s.past.drainCut ==> s.phase.Closing? || s.phase.Ended?)
    ensures Excused(Apply(c, s, a))
  {
  }

  lemma LoggingRun(c: Setting, s: Loop)
    requires Inv(c, s) && Enabled(c, s, RunPacket)
    ensures Logging(c, Apply(c, s, RunPacket))
  {
    FoldSnoc(c, s.past.served, s.phase.packet);
    HistoryGrows(s.past.ups, Fold(c, s.past.served).hops, RunOf(c, s.past.handed, s.phase.packet).hops, []);
    assert s.past.downs == [];
  }

  /** What the initializations come to. */
  lemma BeginsWell(c: Setting, order: seq<NodeId>)
    requires Lists(order, c.net.modules.Keys)
    ensures var ups := Attempted(c.net.modules, order);
            && Distinct(ups)
            && (FirstInitError(c.net.modules, order).None? ==>
                  ups == order && forall n :: n in ups ==> InitError(c.net.modules[n]).None?)
            && (FirstInitError(c.net.modules, order).Some? ==>
                  Reports(c, ups, FirstInitError(c.net.modules, order).value))
  {
    AttemptedPrefix(c.net.modules, order);
  }

  lemma LoggingBegin(c: Setting, s: Loop, order: seq<NodeId>)
    requires Inv(c, s) && Enabled(c, s, Begin(order))
    ensures Logging(c, Apply(c, s, Begin(order)))
  {
    BeginsWell(c, order);
    assert s.past.served == [] && s.past.taken == [] && s.past.downs == [] && s.past.ups == [];
    HistoryGrows(Attempted(c.net.modules, order), [], [], []);
  }

  lemma LoggingClose(c: Setting, s: Loop, order: seq<NodeId>)
    requires Inv(c, s) && Enabled(c, s, Close(order))
    ensures Logging(c, Apply(c, s, Close(order)))
  {
    assert s.past.downs == [];
    HistoryGrows(s.past.ups, Fold(c, s.past.served).hops, [], order);
  }

  lemma LoggingSame(c: Setting, s: Loop, s': Loop)
    requires Logging(c, s) && SameHistory(s, s')
    ensures Logging(c, s')
  {
  }

  lemma LoggingStep(c: Setting, s: Loop, a: Step)
    requires Inv(c, s) && Enabled(c, s, a)
    ensures Logging(c, Apply(c, s, a))
  {
    if a.RunPacket? {
      LoggingRun(c, s);
    } else if a.Begin? {
      LoggingBegin(c, s, a.order);
    } else if a.Close? {
      LoggingClose(c, s, a.order);
    } else {
      if a.Go? { GoingUndisturbed(c.room, s); }
      if a.Outside? { SignalUndisturbed(s, a.signal); }
      LoggingSame(c, s, Apply(c, s, a));
    }
  }

  lemma FinishingStep(c: Setting, s: Loop, a: Step)
    requires Finishing(c, s) && Enabled(c, s, a) && (s.past.downs != [] ==> s.phase.Ended?)
    ensures Finishing(c, Apply(c, s, a))
  {
    if a.Begin? { BeginsWell(c, a.order); }
  }

  lemma InvStep(c: Setting, s: Loop, a: Step)
    requires Inv(c, s) && Enabled(c, s, a)
    ensures Inv(c, Apply(c, s, a))
  {
    TakingStep(c, s, a);
    GivingStep(c, s, a);
    ExcusedStep(c, s, a);
    LoggingStep(c, s, a);
    FinishingStep(c, s, a);
  }

  lemma {:induction false} InvRun(c: Setting, s: Loop, schedule: seq<Step>)
    requires Inv(c, s)
    ensures Play(c, s, schedule).Some? ==> Inv(c, Play(c, s, schedule).value)
    decreases |schedule|
  {
    if schedule != [] && Enabled(c, s, schedule[0]) {
      InvStep(c, s, schedule[0]);
      InvRun(c, Apply(c, s, schedule[0]), schedule[1..]);
    }
  }

  // ----- What every run gives ---------------------------------------------

  /**
   In every run, whatever the environment does and whenever it cancels, the sink has received a
   prefix of what the packets sent first yield when run one by one: in order, none twice. It lacks
   something already served only if the drain's time-out or a closed sink lost it.
   */
  lemma SinkIsPrefixOfSurvivors(c: Setting, schedule: seq<Step>)
    ensures var r := Play(c, Fresh(c), schedule);
            r.Some? ==>
              var s := r.value;
              && s.past.served <= s.past.sent && s.sink <= Fold(c, s.past.served).outputs
              && s.past.handed == Fold(c, s.past.served).handed
              && (s.sink + Pending(s) != Fold(c, s.past.served).outputs ==> s.past.drainCut || !s.flags.sinkOpen)
  {
    InvRun(c, Fresh(c), schedule);
  }

  /**
   A loop that ended normally, its drain not cut short and with its sink open, has delivered everything
   the packets sent before its drain found the source empty yield.
   */
  lemma NothingIsLost(c: Setting, schedule: seq<Step>)
    ensures var r := Play(c, Fresh(c), schedule);
            r.Some? && r.value.phase.Ended? && r.value.phase.result.Ok?
            && !r.value.past.drainCut && r.value.flags.sinkOpen ==>
              var s := r.value;
              && s.past.drained.Some? && s.past.drained.value <= |s.past.sent|
              && s.sink == Fold(c, s.past.sent[..s.past.drained.value]).outputs
  {
    InvRun(c, Fresh(c), schedule);
  }

  lemma {:induction false} FoldAdmitted(c: Setting, packets: seq<Packet>)
    ensures AllAdmitted(c.net, Fold(c, packets).hops)
  {
    if packets != [] {
      var last := |packets| - 1;
      FoldAdmitted(c, packets[..last]);
      var before := Fold(c, packets[..last]);
      RunAdmitted(c, before.handed, packets[last]);
    }
  }

  lemma RunAdmitted(c: Setting, handed: Logs, p: Packet)
    ensures AllAdmitted(c.net, RunOf(c, handed, p).hops)
  {
    if Settles(c, handed, p) {
      var fuel: nat :| !Execute(c.net, handed, c.entry, p, fuel).ending.StillRunning?;
      RunIsUnique(c, handed, p, fuel);
      if c.entry in c.net.entries { WithinLimits(c.net, handed, c.entry, p, fuel); }
    }
  }

  /** Some step of the schedule gave up waiting: the closing, or a packet of the drain. */
  ghost predicate GivesUp(c: Setting, s: Loop, schedule: seq<Step>, closing: bool) {
    exists k: nat ::
      && k < |schedule| && schedule[k] == GiveUp && Play(c, s, schedule[..k]).Some?
      && Play(c, s, schedule[..k]).value.phase.Closing? == closing
  }

  lemma GivesUpLater(c: Setting, s: Loop, schedule: seq<Step>, closing: bool)
    requires schedule != [] && Enabled(c, s, schedule[0])
    requires GivesUp(c, Apply(c, s, schedule[0]), schedule[1..], closing)
    ensures GivesUp(c, s, schedule, closing)
  {
    var k: nat :| k < |schedule[1..]| && schedule[1..][k] == GiveUp
                  && Play(c, Apply(c, s, schedule[0]), schedule[1..][..k]).Some?
                  && Play(c, Apply(c, s, schedule[0]), schedule[1..][..k]).value.phase.Closing? == closing;
    assert schedule[k + 1] == GiveUp && schedule[..k + 1][1..] == schedule[1..][..k];
  }

  /** Nothing is cut short but by giving up. */
  lemma {:induction false} OnlyGivingUpCuts(c: Setting, s: Loop, schedule: seq<Step>)
    requires Play(c, s, schedule).Some?
    ensures var r := Play(c, s, schedule).value;
            && (r.past.closeCut && !s.past.closeCut ==> GivesUp(c, s, schedule, true))
            && (r.past.drainCut && !s.past.drainCut ==> GivesUp(c, s, schedule, false))
    decreases |schedule|
  {
    if schedule != [] {
      var s1 := Apply(c, s, schedule[0]);
      OnlyGivingUpCuts(c, s1, schedule[1..]);
      if GivesUp(c, s1, schedule[1..], true) { GivesUpLater(c, s, schedule, true); }
      if GivesUp(c, s1, schedule[1..], false) { GivesUpLater(c, s, schedule, false); }
      if s1.past.closeCut != s.past.closeCut || s1.past.drainCut != s.past.drainCut {
        assert schedule[0] == GiveUp && Play(c, s, schedule[..0]) == Some(s);
      }
    }
  }

  /**
   A loop that has ended normally has shut every node down once, unless the closing was given up, when it
   has shut down none; drains cut short and closed sinks make no difference. One that ended with an error
   reports the node that did not come up.
   */
  lemma EndsByClosing(c: Setting, schedule: seq<Step>)
    ensures var r := Play(c, Fresh(c), schedule);
            r.Some? && r.value.phase.Ended? ==>
              var s := r.value;
              match s.phase.result
              case Ok(_) =>
                || Lists(s.past.downs, c.net.modules.Keys)
                || (s.past.downs == [] && GivesUp(c, Fresh(c), schedule, true))
              case Err(e) => Reports(c, s.past.ups, e) && s.past.taken == [] && s.past.downs == []
  {
    InvRun(c, Fresh(c), schedule);
    if Play(c, Fresh(c), schedule).Some? { OnlyGivingUpCuts(c, Fresh(c), schedule); }
  }

  /**
   In every run the log is initializations, then `process` calls, then shutdowns. Calls happen only
   once every node has come up, and reach only nodes that did; a failed initialization means no
   packet is even taken; and shutdown, where it happens, reaches every node once.
   */
  lemma LifecycleOrder(c: Setting, schedule: seq<Step>)
    ensures var r := Play(c, Fresh(c), schedule);
            r.Some? ==>
              var s := r.value;
              var hops := Fold(c, s.past.served).hops;
              && s.past.log == History(s.past.ups, hops, s.past.downs)
              && Distinct(s.past.ups)
              && (s.past.taken != [] || s.past.downs != [] ==>
                    forall n :: n in c.net.modules ==> n in s.past.ups && InitError(c.net.modules[n]).None?)
              && (forall hop :: hop in hops ==> hop.node in s.past.ups)
              && (s.past.downs != [] ==>
                    s.phase.Ended? && s.phase.result.Ok? && Lists(s.past.downs, c.net.modules.Keys))
  {
    InvRun(c, Fresh(c), schedule);
    var r := Play(c, Fresh(c), schedule);
    if r.Some? {
      var s := r.value;
      FoldAdmitted(c, s.past.served);
      forall hop | hop in Fold(c, s.past.served).hops ensures hop.node in s.past.ups {
        var i :| 0 <= i < |Fold(c, s.past.served).hops| && Fold(c, s.past.served).hops[i] == hop;
        assert Admitted(c.net, Fold(c, s.past.served).hops[i]);
      }
    }
  }
}
