/**
 What becomes of the loop when the last pause handle is dropped: the flag stays as it is, so the loop
 goes on taking packets exactly if it was not paused, and the packets it has come out of the graph.
 */
module LoopResuming {
  import opened Wrappers
  import opened Packets
  import opened Modules
  import opened Listings
  import opened Walks
  import opened Lifecycles
  import opened ExecutionLoops
  import opened LoopProgress
  import opened LoopPausing
  import opened OneNodeLoops

  /** Once the last handle is gone nothing pauses or resumes the loop any more. */
  lemma {:induction false} DroppedHandleFreezesFlag(c: Setting, s: Loop, schedule: seq<Step>)
    requires !s.flags.handleAlive
    ensures var r := Play(c, s, schedule);
            r.Some? ==> !r.value.flags.handleAlive && r.value.flags.paused == s.flags.paused
    decreases |schedule|
  {
    if schedule != [] && Enabled(c, s, schedule[0]) {
      DroppedHandleFreezesFlag(c, Apply(c, s, schedule[0]), schedule[1..]);
    }
  }

  // ----- Dropped while paused ----------------------------------------------

  predicate KeepsGoing(a: Step) { a != Outside(Cancel) }

  /**
   When the last handle is dropped while paused, the loop never takes another packet and never
   rests: it goes round between the pause flag and the top until it is cancelled.
   */
  lemma {:induction false} DroppedWhilePausedSpins(c: Setting, s: Loop, schedule: seq<Step>)
    requires Idling(s) && !s.flags.handleAlive && forall a :: a in schedule ==> KeepsGoing(a)
    ensures var r := Play(c, s, schedule);
            r.Some? ==>
              r.value.past.served == s.past.served && r.value.past.taken == s.past.taken && CanMove(c, r.value)
    decreases |schedule|
  {
    if schedule == [] {
      StandsStillExactlyWhen(c, s);
    } else if Enabled(c, s, schedule[0]) {
      assert schedule[0] in schedule && KeepsGoing(schedule[0]) && KeepsPause(schedule[0]);
      IdlingStep(c, s, schedule[0]);
      DroppedWhilePausedSpins(c, Apply(c, s, schedule[0]), schedule[1..]);
    }
  }

  // ----- Coming back to the pause flag -------------------------------------

  /** About to look at the pause flag, with nothing under way. */
  predicate LooksNext(s: Loop) { s.phase.AtTop? || s.phase.LookingAtCancel? || s.phase.LookingAtPause? }

  /** The packet comes out of the graph, and what it yields can be got rid of. */
  ghost predicate ComesThrough(c: Setting, s: Loop, p: Packet) {
    Settles(c, s.past.handed, p) && (Exits(c, s.past.handed, p) ==> s.flags.sinkOpen)
  }

  /** Nothing the main loop has, or is about to take, keeps it from coming back to the pause flag. */
  ghost predicate ComesBack(c: Setting, s: Loop) {
    match s.phase
    case Starting => AllStart(c)
    case LookingAtSource => s.source != [] ==> ComesThrough(c, s, s.source[0])
    case Holding(p, _) => ComesThrough(c, s, p)
    case Running(p, _) => ComesThrough(c, s, p)
    case Emitting(_, _) => s.flags.sinkOpen
    case _ => true
  }

  ghost predicate NeverBack(c: Setting, s: Loop) { !BeforeDrain(s) || !ComesBack(c, s) }

  lemma NeverBackGoes(c: Setting, s: Loop)
    requires NeverBack(c, s) && CanGo(c.room, s)
    ensures NeverBack(c, Gone(c.room, s))
  {
  }

  lemma NeverBackSignal(c: Setting, s: Loop, signal: Signal)
    requires NeverBack(c, s) && Possible(s, signal)
    ensures NeverBack(c, Signalled(s, signal))
  {
  }

  lemma NeverBackStep(c: Setting, s: Loop, a: Step)
    requires NeverBack(c, s) && Enabled(c, s, a)
    ensures NeverBack(c, Apply(c, s, a))
  {
    if a.Go? { NeverBackGoes(c, s); }
    if a.Outside? { NeverBackSignal(c, s, a.signal); }
    if a.Begin? { StartsWhenAllDo(c, a.order); }
  }

  lemma {:induction false} NeverBackRun(c: Setting, s: Loop, schedule: seq<Step>)
    requires NeverBack(c, s) && Play(c, s, schedule).Some?
    ensures !LooksNext(Play(c, s, schedule).value)
    decreases |schedule|
  {
    if schedule != [] {
      NeverBackStep(c, s, schedule[0]);
      NeverBackRun(c, Apply(c, s, schedule[0]), schedule[1..]);
    }
  }

  /** In the main loop, with everything as it should be to go on taking packets. */
  predicate Open(s: Loop) { BeforeDrain(s) && !s.flags.paused && !s.flags.cancelled && s.flags.sourceOpen }

  /** A run without a cancellation that leads to the pause flag. */
  ghost predicate Returns(c: Setting, s: Loop, schedule: seq<Step>) {
    && (forall a :: a in schedule ==> KeepsGoing(a))
    && Play(c, s, schedule).Some? && LooksNext(Play(c, s, schedule).value) && Open(Play(c, s, schedule).value)
  }

  lemma ReturnsLater(c: Setting, s: Loop, a: Step, rest: seq<Step>)
    requires Enabled(c, s, a) && KeepsGoing(a) && Returns(c, Apply(c, s, a), rest)
    ensures Returns(c, s, [a] + rest)
  {
    PlayCons(c, s, a, rest);
  }

  lemma {:induction false} EmittingReturns(c: Setting, s: Loop) returns (schedule: seq<Step>)
    requires Open(s) && s.phase.Emitting? && s.flags.sinkOpen
    ensures Returns(c, s, schedule)
    decreases s.buffered
  {
    if SinkFull(c.room, s) {
      schedule := EmittingReturns(c, Apply(c, s, Outside(TakeOut)));
      ReturnsLater(c, s, Outside(TakeOut), schedule);
      schedule := [Outside(TakeOut)] + schedule;
    } else {
      schedule := [];
      ReturnsLater(c, s, Go, schedule);
      schedule := [Go] + schedule;
    }
  }

  lemma RunningReturns(c: Setting, s: Loop) returns (schedule: seq<Step>)
    requires Open(s) && s.phase.Running? && ComesBack(c, s)
    ensures Returns(c, s, schedule)
  {
    var s1 := Apply(c, s, RunPacket);
    schedule := [];
    if s1.phase.Emitting? { schedule := EmittingReturns(c, s1); }
    ReturnsLater(c, s, RunPacket, schedule);
    schedule := [RunPacket] + schedule;
  }

  lemma HoldingReturns(c: Setting, s: Loop) returns (schedule: seq<Step>)
    requires Open(s) && s.phase.Holding? && ComesBack(c, s)
    ensures Returns(c, s, schedule)
  {
    if s.flags.locked {
      var s1 := Apply(c, s, Outside(UnlockGraph));
      schedule := RunningReturns(c, Apply(c, s1, Go));
      ReturnsLater(c, s1, Go, schedule);
      ReturnsLater(c, s, Outside(UnlockGraph), [Go] + schedule);
      schedule := [Outside(UnlockGraph)] + ([Go] + schedule);
    } else {
      schedule := RunningReturns(c, Apply(c, s, Go));
      ReturnsLater(c, s, Go, schedule);
      schedule := [Go] + schedule;
    }
  }

  lemma StartingReturns(c: Setting, s: Loop) returns (schedule: seq<Step>)
    requires Open(s) && s.phase.Starting? && AllStart(c)
    ensures Returns(c, s, schedule)
  {
    var order := SomeListing(c.net.modules.Keys);
    StartsWhenAllDo(c, order);
    schedule := [];
    var s1 := if s.flags.locked then Apply(c, s, Outside(UnlockGraph)) else s;
    ReturnsLater(c, s1, Begin(order), schedule);
    schedule := [Begin(order)] + schedule;
    if s.flags.locked {
      ReturnsLater(c, s, Outside(UnlockGraph), schedule);
      schedule := [Outside(UnlockGraph)] + schedule;
    }
  }

  lemma ParkedReturns(c: Setting, s: Loop) returns (schedule: seq<Step>)
    requires Open(s) && s.phase.Parked?
    ensures Returns(c, s, schedule)
  {
    var offer := Outside(Offer(Blank([])));
    ReturnsLater(c, Apply(c, s, offer), Go, []);
    ReturnsLater(c, s, offer, [Go] + []);
    schedule := [offer] + ([Go] + []);
  }

  lemma LookingReturns(c: Setting, s: Loop) returns (schedule: seq<Step>)
    requires Open(s) && s.phase.LookingAtSource? && ComesBack(c, s)
    ensures Returns(c, s, schedule)
  {
    var s1 := Apply(c, s, Go);
    if s.source == [] { schedule := ParkedReturns(c, s1); } else { schedule := HoldingReturns(c, s1); }
    ReturnsLater(c, s, Go, schedule);
    schedule := [Go] + schedule;
  }

  lemma SomeReturn(c: Setting, s: Loop) returns (schedule: seq<Step>)
    requires Open(s) && ComesBack(c, s)
    ensures Returns(c, s, schedule)
  {
    match s.phase
    case Starting => schedule := StartingReturns(c, s);
    case LookingAtSource => schedule := LookingReturns(c, s);
    case Parked => schedule := ParkedReturns(c, s);
    case Holding(_, _) => schedule := HoldingReturns(c, s);
    case Running(_, _) => schedule := RunningReturns(c, s);
    case Emitting(_, _) => schedule := EmittingReturns(c, s);
    case _ => schedule := [];
  }

  // ----- And taking a packet then -------------------------------------------

  /** A run without a cancellation that takes a packet. */
  ghost predicate Takes(c: Setting, s: Loop, schedule: seq<Step>) {
    && (forall a :: a in schedule ==> KeepsGoing(a))
    && Play(c, s, schedule).Some? && Play(c, s, schedule).value.past.taken != s.past.taken
  }

  function StepsToSource(s: Loop): nat {
    if s.phase.AtTop? then 3 else if s.phase.LookingAtCancel? then 2 else if s.phase.LookingAtPause? then 1 else 0
  }

  lemma {:induction false} TakesWaiting(c: Setting, s: Loop) returns (schedule: seq<Step>)
    requires Open(s) && (LooksNext(s) || s.phase.LookingAtSource?) && s.source != []
    ensures Takes(c, s, schedule)
    decreases StepsToSource(s)
  {
    schedule := [];
    if !s.phase.LookingAtSource? { schedule := TakesWaiting(c, Apply(c, s, Go)); }
    PlayCons(c, s, Go, schedule);
    schedule := [Go] + schedule;
  }

  lemma SomeTaking(c: Setting, s: Loop) returns (schedule: seq<Step>)
    requires Open(s) && LooksNext(s)
    ensures Takes(c, s, schedule)
  {
    if s.source == [] {
      var p := Blank([]);
      schedule := TakesWaiting(c, Apply(c, s, Outside(Offer(p))));
      PlayCons(c, s, Outside(Offer(p)), schedule);
      schedule := [Outside(Offer(p))] + schedule;
    } else {
      schedule := TakesWaiting(c, s);
    }
  }

  /** Some run without a cancellation comes back to the pause flag and then takes a packet. */
  ghost predicate TakesAgain(c: Setting, s: Loop) {
    exists back, more ::
      && (forall a :: a in back ==> KeepsGoing(a))
      && Play(c, s, back).Some? && LooksNext(Play(c, s, back).value)
      && Takes(c, Play(c, s, back).value, more)
  }

  lemma ResumesExactlyWhen(c: Setting, s: Loop)
    requires !s.flags.handleAlive && BeforeDrain(s) && !s.flags.cancelled && s.flags.sourceOpen
    ensures TakesAgain(c, s) <==> !s.flags.paused && ComesBack(c, s)
  {
    if !s.flags.paused && ComesBack(c, s) {
      var back := SomeReturn(c, s);
      var more := SomeTaking(c, Play(c, s, back).value);
      assert Takes(c, Play(c, s, back).value, more);
    }
    forall back, more |
      && (forall a :: a in back ==> KeepsGoing(a))
      && Play(c, s, back).Some? && LooksNext(Play(c, s, back).value)
      && Takes(c, Play(c, s, back).value, more)
      ensures !s.flags.paused && ComesBack(c, s)
    {
      if !ComesBack(c, s) { NeverBackRun(c, s, back); }
      if s.flags.paused {
        DroppedHandleFreezesFlag(c, s, back);
        NotCancelledRun(c, s, back);
        DroppedWhilePausedSpins(c, Play(c, s, back).value, more);
      }
    }
  }

  lemma {:induction false} NotCancelledRun(c: Setting, s: Loop, schedule: seq<Step>)
    requires !s.flags.cancelled && (forall a :: a in schedule ==> KeepsGoing(a)) && Play(c, s, schedule).Some?
    ensures !Play(c, s, schedule).value.flags.cancelled
    decreases |schedule|
  {
    if schedule != [] {
      assert schedule[0] in schedule && KeepsGoing(schedule[0]);
      NotCancelledRun(c, Apply(c, s, schedule[0]), schedule[1..]);
    }
  }

  /**
   Dropping the last handle is a permanent resume exactly if the loop was not paused at the time: at
   any later point before the drain, uncancelled and with the source open, the loop can come back to
   the pause flag and take another packet exactly if it was not paused when the handle was dropped, and
   the packet it has, if any, comes through the graph and out.
   */
  lemma DroppedHandleResumesExactlyWhen(c: Setting, s: Loop, schedule: seq<Step>)
    requires !s.flags.handleAlive
    ensures var r := Play(c, s, schedule);
            r.Some? && BeforeDrain(r.value) && !r.value.flags.cancelled && r.value.flags.sourceOpen ==>
              (TakesAgain(c, r.value) <==> !s.flags.paused && ComesBack(c, r.value))
  {
    DroppedHandleFreezesFlag(c, s, schedule);
    var r := Play(c, s, schedule);
    if r.Some? && BeforeDrain(r.value) && !r.value.flags.cancelled && r.value.flags.sourceOpen {
      ResumesExactlyWhen(c, r.value);
    }
  }
}
