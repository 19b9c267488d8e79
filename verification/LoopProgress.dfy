/** When the runtime loop stands still, and whether cancelling it brings it to an end. */
module LoopProgress {
  import opened Wrappers
  import opened Packets
  import opened Modules
  import opened Listings
  import opened Walks
  import opened Lifecycles
  import opened ExecutionLoops
  import opened OneNodeLoops

  ghost predicate CanMove(c: Setting, s: Loop) {
    exists a: Step :: !a.Outside? && Enabled(c, s, a)
  }

  /** The packet in the graph never comes out. */
  ghost predicate Circles(c: Setting, s: Loop) {
    s.phase.Running? && !Settles(c, s.past.handed, s.phase.packet)
  }

  /** The main loop has a packet for a sink that is full and still open. */
  predicate HeldUp(c: Setting, s: Loop) {
    s.phase.Emitting? && !s.phase.draining && SinkFull(c.room, s)
  }

  /** Somebody else holds the graph lock, and no time-out limits the wait. */
  predicate LockedOut(s: Loop) {
    s.flags.locked && (s.phase.Starting? || (s.phase.Holding? && !s.phase.draining))
  }

  /**
   The loop stands still exactly when it has ended, is paused with a live handle, has found nothing
   to take, runs a packet that goes round for ever, waits in the main loop for room in the sink, or
   waits for the graph lock where no time-out applies. Of these, cancelling ends only the third.
   */
  lemma StandsStillExactlyWhen(c: Setting, s: Loop)
    ensures !CanMove(c, s) <==>
            || s.phase.Ended?
            || (s.phase.AtTop? && s.flags.paused && s.flags.handleAlive)
            || (s.phase.Parked? && s.source == [] && s.flags.sourceOpen && !s.flags.cancelled && !s.flags.paused)
            || Circles(c, s)
            || HeldUp(c, s)
            || LockedOut(s)
  {
    var order := SomeListing(c.net.modules.Keys);
    assert s.phase.Starting? && !s.flags.locked ==> Enabled(c, s, Begin(order));
    assert s.phase.Closing? ==> Enabled(c, s, GiveUp);
    assert (s.phase.Holding? || s.phase.Emitting?) && s.phase.draining ==> Enabled(c, s, GiveUp);
    assert s.phase.Running? && !Circles(c, s) ==> Enabled(c, s, RunPacket);
    assert CanGo(c.room, s) ==> Enabled(c, s, Go);
  }

  // ----- A cancellation wins ties -----------------------------------------

  /** Cancelled, and not already past the look at the cancellation. */
  predicate Caught(s: Loop) {
    && s.flags.cancelled && !s.phase.LookingAtPause? && !s.phase.LookingAtSource?
    && !(s.phase.InHand() && !s.phase.draining)
  }

  lemma CaughtGoes(room: Capacity, s: Loop)
    requires Caught(s) && CanGo(room, s)
    ensures Caught(Gone(room, s))
  {
  }

  lemma CaughtStep(c: Setting, s: Loop, a: Step)
    requires Caught(s) && Enabled(c, s, a)
    ensures Caught(Apply(c, s, a))
  {
    if a.Go? { CaughtGoes(c.room, s); }
  }

  /**
   A cancellation wins every tie: unless the loop was already past looking for it in this very poll, the
   main loop never takes or runs another packet, whatever the source holds and whatever happens later.
   What is still processed is the drain's.
   */
  lemma {:induction false} CancellationWinsTies(c: Setting, s: Loop, schedule: seq<Step>)
    requires Caught(s)
    ensures var r := Play(c, s, schedule);
            r.Some? ==> !r.value.phase.LookingAtSource? && (r.value.phase.InHand() ==> r.value.phase.draining)
    decreases |schedule|
  {
    if schedule != [] && Enabled(c, s, schedule[0]) {
      CaughtStep(c, s, schedule[0]);
      CancellationWinsTies(c, Apply(c, s, schedule[0]), schedule[1..]);
    }
  }

  /** Cancelled, and with nothing more to come from the main loop. */
  predicate Retired(s: Loop) {
    s.flags.cancelled &&
    match s.phase
    case Holding(_, draining) => draining
    case Running(_, draining) => draining
    case Emitting(_, draining) => draining
    case _ => !s.phase.Starting? && !s.phase.AtTop? && !s.phase.LookingAtPause? && !s.phase.LookingAtSource?
  }

  lemma RetiredStep(c: Setting, s: Loop, a: Step)
    requires Retired(s) && Enabled(c, s, a)
    ensures Retired(Apply(c, s, a))
  {
  }

  lemma {:induction false} RetiredRun(c: Setting, s: Loop, schedule: seq<Step>)
    requires Retired(s) && Play(c, s, schedule).Some?
    ensures Retired(Play(c, s, schedule).value)
    decreases |schedule|
  {
    if schedule != [] {
      RetiredStep(c, s, schedule[0]);
      RetiredRun(c, Apply(c, s, schedule[0]), schedule[1..]);
    }
  }

  /**
   The tie itself: when an idle loop is cancelled, no packet enters the graph from the main loop any
   more, however many are offered before or after the loop wakes, and it never comes to wait in the main
   loop for the sink or the lock.
   */
  lemma CancelledWhileIdle(c: Setting, s: Loop, schedule: seq<Step>)
    requires s.phase.Parked?
    ensures var r := Play(c, s, [Outside(Cancel)] + schedule);
            r.Some? ==>
              && (r.value.phase.InHand() || r.value.phase.Emitting? ==> r.value.phase.draining)
              && !HeldUp(c, r.value) && !LockedOut(r.value)
  {
    PlayCons(c, s, Outside(Cancel), schedule);
    if Play(c, s, [Outside(Cancel)] + schedule).Some? {
      RetiredRun(c, Apply(c, s, Outside(Cancel)), schedule);
    }
  }

  // ----- Where a cancelled loop stops -------------------------------------

  /** Steps the loop can still make once cancelled. */
  function Remaining(s: Loop): nat {
    var left := 4 * |s.source|;
    match s.phase
    case Ended(_) => 0
    case Closing => 1
    case Draining => 2 + left
    case Emitting(_, draining) => if draining then 3 + left else 5 + left
    case Running(_, draining) => if draining then 4 + left else 6 + left
    case Holding(_, draining) => if draining then 5 + left else 7 + left
    case LookingAtCancel => 3 + left
    case AtTop => 4 + left
    case Parked => 4 + left
    case LookingAtSource => 5 + left
    case LookingAtPause => 6 + left
    case Starting => 5 + left
  }

  /** A packet the main loop has, or is about to take, will come out of the graph. */
  ghost predicate Awaits(c: Setting, s: Loop) {
    match s.phase
    case Emitting(_, draining) => !draining
    case Running(p, draining) => !draining && Exits(c, s.past.handed, p)
    case Holding(p, draining) => !draining && Exits(c, s.past.handed, p)
    case LookingAtPause => s.source != [] && Exits(c, s.past.handed, s.source[0])
    case LookingAtSource => s.source != [] && Exits(c, s.past.handed, s.source[0])
    case _ => false
  }

  /** The main loop is starting, or has or is about to take a packet, while somebody else holds the lock. */
  predicate Barred(s: Loop) {
    s.flags.locked &&
    match s.phase
    case Starting => true
    case Holding(_, draining) => !draining
    case LookingAtPause => s.source != []
    case LookingAtSource => s.source != []
    case _ => false
  }

  /** Left to itself, the loop will come to stand at the sink. */
  ghost predicate WillBeHeldUp(c: Setting, s: Loop) {
    Awaits(c, s) && SinkFull(c.room, s) && !Barred(s)
  }

  // ----- Whether a packet will circle -------------------------------------

  /** How many packets the sink can still take. */
  function Space(room: Capacity, s: Loop): nat {
    if s.flags.sinkOpen && s.buffered < room then room - s.buffered else 0
  }

  /** Run in order, the packets come to one that does not settle before the sink has taken all it can. */
  ghost predicate DrainCircles(c: Setting, handed: Logs, packets: seq<Packet>, space: nat)
    decreases |packets|
  {
    packets != [] &&
    (Settles(c, handed, packets[0]) ==>
       var run := RunOf(c, handed, packets[0]);
       if run.ending.Exited? then space > 0 && DrainCircles(c, run.handed, packets[1..], space - 1)
       else DrainCircles(c, run.handed, packets[1..], space))
  }

  /** The same, with an output to deliver first; only in the main loop a closed sink leads to the drain. */
  ghost predicate EmitsThenCircles(c: Setting, s: Loop, handed: Logs, rest: seq<Packet>, draining: bool) {
    var space := Space(c.room, s);
    if space > 0 then DrainCircles(c, handed, rest, space - 1)
    else !draining && !s.flags.sinkOpen && DrainCircles(c, handed, rest, 0)
  }

  /** The same, with a packet to run first. */
  ghost predicate RunsThenCircles(c: Setting, s: Loop, p: Packet, rest: seq<Packet>, draining: bool) {
    Settles(c, s.past.handed, p) ==>
      var run := RunOf(c, s.past.handed, p);
      if run.ending.Exited? then EmitsThenCircles(c, s, run.handed, rest, draining)
      else DrainCircles(c, run.handed, rest, Space(c.room, s))
  }

  /** The same, with the packet that the main loop is about to take. */
  ghost predicate TakesThenCircles(c: Setting, s: Loop) {
    s.source != [] && RunsThenCircles(c, s, s.source[0], s.source[1..], false)
  }

  ghost predicate AllStart(c: Setting) {
    forall n :: n in c.net.modules ==> InitError(c.net.modules[n]).None?
  }

  /** Left to itself and without a time-out, the loop will come to run a packet that never comes out. */
  ghost predicate WillCircle(c: Setting, s: Loop) {
    match s.phase
    case Running(p, draining) =>
      RunsThenCircles(c, s, p, s.source, draining) && (s.flags.locked ==> !Settles(c, s.past.handed, p))
    case Holding(p, draining) => !s.flags.locked && RunsThenCircles(c, s, p, s.source, draining)
    case Emitting(_, draining) =>
      !s.flags.locked && EmitsThenCircles(c, s, s.past.handed, s.source, draining)
    case LookingAtPause => !s.flags.locked && TakesThenCircles(c, s)
    case LookingAtSource => !s.flags.locked && TakesThenCircles(c, s)
    case Closing => false
    case Ended(_) => false
    case _ =>
      !s.flags.locked && (s.phase.Starting? ==> AllStart(c)) &&
      DrainCircles(c, s.past.handed, s.source, Space(c.room, s))
  }

  lemma CirclingGoes(c: Setting, s: Loop)
    requires s.flags.cancelled && !s.flags.paused && CanGo(c.room, s)
    ensures WillCircle(c, Gone(c.room, s)) <==> WillCircle(c, s)
  {
  }

  lemma StartsWhenAllDo(c: Setting, order: seq<NodeId>)
    requires Lists(order, c.net.modules.Keys)
    ensures FirstInitError(c.net.modules, order).None? <==> AllStart(c)
  {
    AttemptedPrefix(c.net.modules, order);
  }

  lemma CirclingBegins(c: Setting, s: Loop, order: seq<NodeId>)
    requires Enabled(c, s, Begin(order))
    ensures WillCircle(c, Apply(c, s, Begin(order))) <==> WillCircle(c, s)
  {
    StartsWhenAllDo(c, order);
    var s' := Apply(c, s, Begin(order));
    assert s'.past.handed == s.past.handed && s'.source == s.source && s'.flags == s.flags;
    assert Space(c.room, s') == Space(c.room, s);
    assert if AllStart(c) then s'.phase.AtTop? else s'.phase.Ended?;
  }

  lemma CirclingStep(c: Setting, s: Loop, a: Step)
    requires s.flags.cancelled && !s.flags.paused && !a.Outside? && Enabled(c, s, a)
    ensures WillCircle(c, Apply(c, s, a)) ==> WillCircle(c, s)
    ensures !a.GiveUp? ==> (WillCircle(c, Apply(c, s, a)) <==> WillCircle(c, s))
  {
    match a
    case Go => CirclingGoes(c, s);
    case Begin(order) => CirclingBegins(c, s, order);
    case RunPacket => CirclingRuns(c, s);
    case _ =>
  }

  lemma CirclingRuns(c: Setting, s: Loop)
    requires s.phase.Running? && Settles(c, s.past.handed, s.phase.packet)
    ensures WillCircle(c, Served(s, RunOf(c, s.past.handed, s.phase.packet))) <==> WillCircle(c, s)
  {
  }

  lemma CancelledGoes(c: Setting, s: Loop)
    requires s.flags.cancelled && !s.flags.paused && CanGo(c.room, s)
    ensures var s' := Gone(c.room, s);
            && s'.flags == s.flags && Remaining(s') < Remaining(s)
            && (WillBeHeldUp(c, s') <==> WillBeHeldUp(c, s)) && Barred(s') == Barred(s)
  {
  }

  lemma CancelledStep(c: Setting, s: Loop, a: Step)
    requires s.flags.cancelled && !s.flags.paused && !a.Outside? && Enabled(c, s, a)
    ensures var s' := Apply(c, s, a);
            && s'.flags == s.flags && Remaining(s') < Remaining(s)
            && (WillBeHeldUp(c, s') <==> WillBeHeldUp(c, s)) && Barred(s') == Barred(s)
  {
    if a.Go? { CancelledGoes(c, s); }
  }

  /**
   Once cancelled and not paused, the loop's own steps are bounded, and wherever they stop it has
   ended, or runs a packet that circles for ever, or waits in the main loop for the sink or the lock.
   It comes to wait for the sink exactly if, when it was left to itself, the sink was open and full and
   the main loop had a packet to come out of the graph; for the lock exactly if that was held while
   the main loop was starting or had a packet to go in. Without a time-out it comes to circle exactly if
   the packets it had yet to run, taken in order, reach one that does not settle before the drain is
   held up; a time-out only ever prevents that. It ends in all other cases.
   */
  lemma {:induction false} CancelledLoopEnds(c: Setting, s: Loop, schedule: seq<Step>)
    requires s.flags.cancelled && !s.flags.paused && forall a :: a in schedule ==> !a.Outside?
    ensures var r := Play(c, s, schedule);
            r.Some? ==>
              && |schedule| <= Remaining(s)
              && (!CanMove(c, r.value) ==>
                    && (r.value.phase.Ended? || Circles(c, r.value) || HeldUp(c, r.value) || LockedOut(r.value))
                    && (HeldUp(c, r.value) <==> WillBeHeldUp(c, s))
                    && (LockedOut(r.value) <==> Barred(s))
                    && (Circles(c, r.value) ==> WillCircle(c, s))
                    && ((forall a :: a in schedule ==> !a.GiveUp?) ==> (Circles(c, r.value) <==> WillCircle(c, s))))
    decreases |schedule|
  {
    if schedule == [] {
      StandsStillExactlyWhen(c, s);
    } else if Enabled(c, s, schedule[0]) {
      CancelledStep(c, s, schedule[0]);
      CirclingStep(c, s, schedule[0]);
      CancelledLoopEnds(c, Apply(c, s, schedule[0]), schedule[1..]);
    }
  }

  // ----- Held up for good -------------------------------------------------

  predicate LeavesSink(a: Step) { a !in {Outside(TakeOut), Outside(CloseSink)} }

  /** As long as nobody takes from the sink or closes it, nothing else gets the loop going again. */
  lemma {:induction false} HeldUpForGood(c: Setting, s: Loop, schedule: seq<Step>)
    requires HeldUp(c, s) && forall a :: a in schedule ==> LeavesSink(a)
    ensures var r := Play(c, s, schedule);
            r.Some? ==> HeldUp(c, r.value) && r.value.phase == s.phase && !CanMove(c, r.value)
    decreases |schedule|
  {
    StandsStillExactlyWhen(c, s);
    if schedule != [] && Enabled(c, s, schedule[0]) {
      assert schedule[0] in schedule && LeavesSink(schedule[0]) && schedule[0].Outside?;
      HeldUpForGood(c, Apply(c, s, schedule[0]), schedule[1..]);
    }
  }

  predicate LeavesPause(a: Step) { a !in {Outside(Resume), Outside(DropHandle)} }

  /** A loop that waits at the top to be resumed is not reached by a cancellation either. */
  lemma {:induction false} PausedForGood(c: Setting, s: Loop, schedule: seq<Step>)
    requires s.phase.AtTop? && s.flags.paused && s.flags.handleAlive
    requires forall a :: a in schedule ==> LeavesPause(a)
    ensures var r := Play(c, s, schedule);
            r.Some? ==> r.value.phase.AtTop? && !CanMove(c, r.value)
    decreases |schedule|
  {
    StandsStillExactlyWhen(c, s);
    if schedule != [] && Enabled(c, s, schedule[0]) {
      assert schedule[0] in schedule && LeavesPause(schedule[0]) && schedule[0].Outside?;
      PausedForGood(c, Apply(c, s, schedule[0]), schedule[1..]);
    }
  }

  /** `k` packets go through the graph and stay in the sink. */
  lemma {:induction false} FillsUp(room: Capacity, s: Loop, k: nat) returns (schedule: seq<Step>, s': Loop)
    requires Fresher(s, s.buffered) && s.buffered + k <= room
    ensures Play(OneNode(room), s, schedule) == Some(s') && Fresher(s', s.buffered + k)
    decreases k
  {
    if k == 0 {
      schedule, s' := [], s;
    } else {
      var c := OneNode(room);
      var first, s1 := ComesOut(room, s);
      var s2 := Apply(c, s1, Go);
      var rest;
      rest, s' := FillsUp(room, s2, k - 1);
      PlayCons(c, s1, Go, rest);
      PlayJoin(c, s, first, [Go] + rest);
      schedule := first + ([Go] + rest);
    }
  }

  /**
   However much the sink can hold, a run can be cancelled, with an open source, a live handle, no
   pause and a free lock, and never end: the receiver only has to stop reading.
   */
  lemma FullSinkSurvivesCancel(room: Capacity) returns (schedule: seq<Step>, s: Loop)
    ensures Play(OneNode(room), Fresh(OneNode(room)), schedule) == Some(s)
    ensures s.flags == INITIALLY.(cancelled := true) && HeldUp(OneNode(room), s) && !CanMove(OneNode(room), s)
    ensures forall later :: (forall a :: a in later ==> LeavesSink(a)) && Play(OneNode(room), s, later).Some? ==>
              !Play(OneNode(room), s, later).value.phase.Ended?
  {
    var c := OneNode(room);
    var s1 := StartsUp(room);
    var fill, s2 := FillsUp(room, s1, room);
    var out, s3 := ComesOut(room, s2);
    s := Apply(c, s3, Outside(Cancel));
    PlayCons(c, s3, Outside(Cancel), []);
    PlayJoin(c, s2, out, [Outside(Cancel)] + []);
    PlayJoin(c, s1, fill, out + ([Outside(Cancel)] + []));
    PlayJoin(c, Fresh(c), [Begin([0])], fill + (out + ([Outside(Cancel)] + [])));
    schedule := [Begin([0])] + (fill + (out + ([Outside(Cancel)] + [])));
    StandsStillExactlyWhen(c, s);
    forall later | (forall a :: a in later ==> LeavesSink(a)) && Play(c, s, later).Some?
      ensures !Play(c, s, later).value.phase.Ended?
    {
      HeldUpForGood(c, s, later);
    }
  }
}
