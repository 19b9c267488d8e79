/** What a pause keeps out of the graph, and exactly when it fails to. */
module LoopPausing {
  import opened Wrappers
  import opened Packets
  import opened Walks
  import opened ExecutionLoops
  import opened LoopProgress
  import opened OneNodeLoops

  /** Not yet draining. */
  predicate BeforeDrain(s: Loop) {
    match s.phase
    case Holding(_, draining) => !draining
    case Running(_, draining) => !draining
    case Emitting(_, draining) => !draining
    case _ => !s.phase.Draining? && !s.phase.Closing? && !s.phase.Ended?
  }

  /** Past the main loop with nothing left for the drain to take, or never started. */
  predicate Exhausted(s: Loop) {
    || (!s.flags.sourceOpen && s.source == [] && (s.phase.Draining? || s.phase.Closing? || s.phase.Ended?))
    || (s.phase.Ended? && s.phase.result.Err?)
  }

  /** Paused and not cancelled, and no drain takes packets regardless. */
  predicate Calm(s: Loop) {
    s.flags.paused && !s.flags.cancelled && (BeforeDrain(s) || Exhausted(s))
  }

  /** Packets that have entered the graph. */
  function Entered(s: Loop): nat { |s.past.served| + if s.phase.Running? then 1 else 0 }

  /** Past the pause flag in this very poll, and with a packet to take, or taken, that has not entered. */
  function UnderWay(s: Loop): nat {
    if s.phase.LookingAtSource? || s.phase.Holding? then 1 else 0
  }

  predicate KeepsPause(a: Step) { a !in {Outside(Resume), Outside(Cancel)} }

  /** After an output is lost, a drain would find something to take. */
  predicate MoreToTake(s: Loop, kept: nat) { s.flags.sourceOpen || |s.source| > kept }

  /**
   The main loop has an output to deliver, or may come to have one before it looks at the pause flag
   again, and if the sink is closed on it there is something left to drain.
   */
  ghost predicate CanBreak(c: Setting, s: Loop) {
    match s.phase
    case Emitting(_, draining) => !draining && MoreToTake(s, 0)
    case Running(p, draining) => !draining && Exits(c, s.past.handed, p) && MoreToTake(s, 0)
    case Holding(p, draining) => !draining && Exits(c, s.past.handed, p) && MoreToTake(s, 0)
    case LookingAtSource =>
      if s.source != [] then Exits(c, s.past.handed, s.source[0]) && MoreToTake(s, 1)
      else s.flags.sourceOpen && exists p :: Exits(c, s.past.handed, p)
    case _ => false
  }

  lemma CalmGoes(c: Setting, s: Loop)
    requires Calm(s) && !CanBreak(c, s) && CanGo(c.room, s)
    ensures var s' := Gone(c.room, s);
            && Calm(s') && !CanBreak(c, s')
            && Entered(s') + UnderWay(s') <= Entered(s) + UnderWay(s) && Entered(s) <= Entered(s')
  {
  }

  lemma CalmSignal(c: Setting, s: Loop, signal: Signal)
    requires Calm(s) && !CanBreak(c, s) && Possible(s, signal) && signal != Resume && signal != Cancel
    ensures var s' := Signalled(s, signal);
            && Calm(s') && !CanBreak(c, s')
            && Entered(s') == Entered(s) && UnderWay(s') == UnderWay(s)
  {
  }

  lemma CalmStep(c: Setting, s: Loop, a: Step)
    requires Calm(s) && !CanBreak(c, s) && Enabled(c, s, a) && KeepsPause(a)
    ensures var s' := Apply(c, s, a);
            && Calm(s') && !CanBreak(c, s')
            && Entered(s') + UnderWay(s') <= Entered(s) + UnderWay(s) && Entered(s) <= Entered(s')
  {
    if a.Go? { CalmGoes(c, s); }
    if a.Outside? { CalmSignal(c, s, a.signal); }
  }

  /**
   Where a pause cannot be broken, then until the next resume or cancellation, whatever else happens,
   no drain begins that takes packets, and at most one more packet enters the graph, and only if the
   loop was already past the pause flag.
   */
  lemma {:induction false} PauseHolds(c: Setting, s: Loop, schedule: seq<Step>)
    requires Calm(s) && !CanBreak(c, s) && forall a :: a in schedule ==> KeepsPause(a)
    ensures var r := Play(c, s, schedule);
            r.Some? ==>
              && Calm(r.value)
              && Entered(s) <= Entered(r.value) <= Entered(s) + UnderWay(s) <= Entered(s) + 1
    decreases |schedule|
  {
    if schedule != [] && Enabled(c, s, schedule[0]) {
      assert schedule[0] in schedule && KeepsPause(schedule[0]);
      CalmStep(c, s, schedule[0]);
      PauseHolds(c, Apply(c, s, schedule[0]), schedule[1..]);
    }
  }

  // ----- Breaking a pause --------------------------------------------------

  /** An output that meets a closed sink makes the loop drain, paused or not. */
  lemma OutputBreaks(c: Setting, s: Loop) returns (schedule: seq<Step>, s': Loop)
    requires s.flags.paused && s.phase.Emitting? && CanBreak(c, s)
    ensures Play(c, s, schedule) == Some(s') && s'.flags.paused && !Calm(s')
    ensures forall a :: a in schedule ==> KeepsPause(a)
  {
    var s1 := Apply(c, s, Outside(CloseSink));
    s' := Apply(c, s1, Go);
    PlayCons(c, s1, Go, []);
    PlayCons(c, s, Outside(CloseSink), [Go] + []);
    schedule := [Outside(CloseSink)] + ([Go] + []);
  }

  lemma RunningBreaks(c: Setting, s: Loop) returns (schedule: seq<Step>, s': Loop)
    requires s.flags.paused && s.phase.Running? && CanBreak(c, s)
    ensures Play(c, s, schedule) == Some(s') && s'.flags.paused && !Calm(s')
    ensures forall a :: a in schedule ==> KeepsPause(a)
  {
    var s1 := Apply(c, s, RunPacket);
    var rest;
    rest, s' := OutputBreaks(c, s1);
    PlayCons(c, s, RunPacket, rest);
    schedule := [RunPacket] + rest;
  }

  lemma HoldingBreaks(c: Setting, s: Loop) returns (schedule: seq<Step>, s': Loop)
    requires s.flags.paused && s.phase.Holding? && CanBreak(c, s)
    ensures Play(c, s, schedule) == Some(s') && s'.flags.paused && !Calm(s')
    ensures forall a :: a in schedule ==> KeepsPause(a)
  {
    var unlock := if s.flags.locked then [Outside(UnlockGraph)] else [];
    var s1 := if s.flags.locked then Apply(c, s, Outside(UnlockGraph)) else s;
    if s.flags.locked { PlayCons(c, s, Outside(UnlockGraph), []); }
    assert Play(c, s, unlock) == Some(s1);
    var s2 := Apply(c, s1, Go);
    var rest;
    rest, s' := RunningBreaks(c, s2);
    PlayCons(c, s1, Go, rest);
    PlayJoin(c, s, unlock, [Go] + rest);
    schedule := unlock + ([Go] + rest);
  }

  lemma TakingBreaks(c: Setting, s: Loop) returns (schedule: seq<Step>, s': Loop)
    requires s.flags.paused && s.phase.LookingAtSource? && CanBreak(c, s)
    ensures Play(c, s, schedule) == Some(s') && s'.flags.paused && !Calm(s')
    ensures forall a :: a in schedule ==> KeepsPause(a)
  {
    if s.source == [] {
      var p :| Exits(c, s.past.handed, p);
      var s1 := Apply(c, s, Outside(Offer(p)));
      assert s1.source == [p];
      var rest;
      rest, s' := TakesAndBreaks(c, s1);
      PlayCons(c, s, Outside(Offer(p)), rest);
      schedule := [Outside(Offer(p))] + rest;
    } else {
      schedule, s' := TakesAndBreaks(c, s);
    }
  }

  lemma TakesAndBreaks(c: Setting, s: Loop) returns (schedule: seq<Step>, s': Loop)
    requires s.flags.paused && s.phase.LookingAtSource? && s.source != [] && CanBreak(c, s)
    ensures Play(c, s, schedule) == Some(s') && s'.flags.paused && !Calm(s')
    ensures forall a :: a in schedule ==> KeepsPause(a)
  {
    var s1 := Apply(c, s, Go);
    var rest;
    rest, s' := HoldingBreaks(c, s1);
    PlayCons(c, s, Go, rest);
    schedule := [Go] + rest;
  }

  /** Some run without a resume or a cancellation starts a drain that takes packets. */
  ghost predicate Breakable(c: Setting, s: Loop) {
    exists schedule ::
      && (forall a :: a in schedule ==> KeepsPause(a))
      && Play(c, s, schedule).Some? && !Calm(Play(c, s, schedule).value)
  }

  /**
   A pause keeps packets out, whatever happens until the next resume or cancellation, exactly unless
   the loop was caught with an output to deliver, or past the pause flag with a packet to come that
   exits, while something is left in the source or it is still open. It is then a closing sink that
   breaks the pause.
   */
  lemma PauseBreaksExactlyWhen(c: Setting, s: Loop)
    requires Calm(s)
    ensures Breakable(c, s) <==> CanBreak(c, s)
  {
    if CanBreak(c, s) {
      var schedule, s';
      if s.phase.Emitting? {
        schedule, s' := OutputBreaks(c, s);
      } else if s.phase.Running? {
        schedule, s' := RunningBreaks(c, s);
      } else if s.phase.Holding? {
        schedule, s' := HoldingBreaks(c, s);
      } else {
        schedule, s' := TakingBreaks(c, s);
      }
      assert Play(c, s, schedule).Some?;
    } else {
      forall schedule | (forall a :: a in schedule ==> KeepsPause(a)) && Play(c, s, schedule).Some?
        ensures Calm(Play(c, s, schedule).value)
      {
        PauseHolds(c, s, schedule);
      }
    }
  }

  // ----- With the sink kept open ------------------------------------------

  predicate KeepsSink(a: Step) { KeepsPause(a) && a != Outside(CloseSink) }

  lemma OpenGoes(room: Capacity, s: Loop)
    requires Calm(s) && s.flags.sinkOpen && CanGo(room, s)
    ensures var s' := Gone(room, s);
            && Calm(s') && s'.flags.sinkOpen
            && Entered(s') + UnderWay(s') <= Entered(s) + UnderWay(s) && Entered(s) <= Entered(s')
  {
  }

  lemma OpenSignal(s: Loop, signal: Signal)
    requires Calm(s) && s.flags.sinkOpen && Possible(s, signal) && KeepsSink(Outside(signal))
    ensures var s' := Signalled(s, signal);
            && Calm(s') && s'.flags.sinkOpen
            && Entered(s') + UnderWay(s') <= Entered(s) + UnderWay(s) && Entered(s) <= Entered(s')
  {
  }

  lemma OpenStep(c: Setting, s: Loop, a: Step)
    requires Calm(s) && s.flags.sinkOpen && Enabled(c, s, a) && KeepsSink(a)
    ensures var s' := Apply(c, s, a);
            && Calm(s') && s'.flags.sinkOpen
            && Entered(s') + UnderWay(s') <= Entered(s) + UnderWay(s) && Entered(s) <= Entered(s')
  {
    if a.Go? { OpenGoes(c.room, s); }
    if a.Outside? { OpenSignal(s, a.signal); }
  }

  /**
   From the moment of a pause, even during start-up, until a resume, a cancellation or the sink closing,
   at most one more packet enters the graph, and only if the loop was already past the pause flag;
   whether or not the handle still exists.
   */
  lemma {:induction false} AtMostOneEntersWhilePaused(c: Setting, s: Loop, schedule: seq<Step>)
    requires Calm(s) && s.flags.sinkOpen && forall a :: a in schedule ==> KeepsSink(a)
    ensures var r := Play(c, s, schedule);
            r.Some? ==>
              && Calm(r.value)
              && Entered(s) <= Entered(r.value) <= Entered(s) + UnderWay(s) <= Entered(s) + 1
    decreases |schedule|
  {
    if schedule != [] && Enabled(c, s, schedule[0]) {
      assert schedule[0] in schedule && KeepsSink(schedule[0]);
      OpenStep(c, s, schedule[0]);
      AtMostOneEntersWhilePaused(c, Apply(c, s, schedule[0]), schedule[1..]);
    }
  }

  // ----- A loop that is idle or at rest -----------------------------------

  /** Paused and not cancelled, with no look at the source before the next look at the pause flag. */
  predicate Idling(s: Loop) {
    && s.flags.paused && !s.flags.cancelled
    && (s.phase.Parked? || s.phase.AtTop? || s.phase.LookingAtCancel? || s.phase.LookingAtPause?)
  }

  lemma IdlingStep(c: Setting, s: Loop, a: Step)
    requires Idling(s) && Enabled(c, s, a) && KeepsPause(a)
    ensures var s' := Apply(c, s, a);
            Idling(s') && s'.past.taken == s.past.taken && s'.past.served == s.past.served
  {
  }

  /** Such a loop takes nothing, whatever happens to source, sink and handle. */
  lemma {:induction false} IdlingTakesNothing(c: Setting, s: Loop, schedule: seq<Step>)
    requires Idling(s) && forall a :: a in schedule ==> KeepsPause(a)
    ensures var r := Play(c, s, schedule);
            r.Some? ==>
              Idling(r.value) && r.value.past.taken == s.past.taken && r.value.past.served == s.past.served
    decreases |schedule|
  {
    if schedule != [] && Enabled(c, s, schedule[0]) {
      assert schedule[0] in schedule && KeepsPause(schedule[0]);
      IdlingStep(c, s, schedule[0]);
      IdlingTakesNothing(c, Apply(c, s, schedule[0]), schedule[1..]);
    }
  }

  /**
   When an idle loop is paused nothing is taken and no drain begins until the next resume or
   cancellation, however many packets are offered before or after the loop wakes.
   */
  lemma PausedWhileIdle(c: Setting, s: Loop, schedule: seq<Step>)
    requires s.phase.Parked? && !s.flags.cancelled && forall a :: a in schedule ==> KeepsPause(a)
    ensures var r := Play(c, s, [Outside(Pause)] + schedule);
            r.Some? ==>
              Idling(r.value) && r.value.past.taken == s.past.taken && r.value.past.served == s.past.served
  {
    if Enabled(c, s, Outside(Pause)) {
      PlayCons(c, s, Outside(Pause), schedule);
      IdlingTakesNothing(c, Apply(c, s, Outside(Pause)), schedule);
    }
  }

  // ----- How much a broken pause lets through ------------------------------

  /** A drain takes whatever is offered. */
  lemma {:induction false} DrainsOn(room: Capacity, s: Loop, k: nat) returns (schedule: seq<Step>, s': Loop)
    requires s.phase.Draining? && s.source == [] && s.flags.sourceOpen && !s.flags.locked
    ensures Play(OneNode(room), s, schedule) == Some(s')
    ensures |s'.past.served| == |s.past.served| + k
    ensures forall a :: a in schedule ==> KeepsPause(a)
    decreases k
  {
    if k == 0 {
      schedule, s' := [], s;
    } else {
      var c, p := OneNode(room), Blank([1]);
      var s1 := Apply(c, s, Outside(Offer(p)));
      assert s1.source == [p];
      var s2 := Apply(c, s1, Go);
      assert s2.phase == Holding(p, true) && s2.source == [];
      var s3 := PassesThrough(room, s2);
      var rest;
      rest, s' := DrainsOn(room, s3, k - 1);
      PlayJoin(c, s2, PassThrough(), rest);
      PlayCons(c, s1, Go, PassThrough() + rest);
      PlayCons(c, s, Outside(Offer(p)), [Go] + (PassThrough() + rest));
      schedule := [Outside(Offer(p))] + ([Go] + (PassThrough() + rest));
    }
  }

  /** When the sink closes on an output, the loop drains. */
  lemma ClosesAndDrains(room: Capacity, s: Loop, k: nat) returns (schedule: seq<Step>)
    requires s.phase.Emitting? && !s.phase.draining && s.source == [] && s.flags.sourceOpen && s.flags.sinkOpen
    requires !s.flags.locked
    ensures forall a :: a in schedule ==> KeepsPause(a)
    ensures var r := Play(OneNode(room), s, schedule);
            r.Some? && |r.value.past.served| == |s.past.served| + k
  {
    var c := OneNode(room);
    var s1 := Apply(c, s, Outside(CloseSink));
    var s2 := Apply(c, s1, Go);
    var more, s3 := DrainsOn(room, s2, k);
    PlayCons(c, s1, Go, more);
    PlayCons(c, s, Outside(CloseSink), [Go] + more);
    schedule := [Outside(CloseSink)] + ([Go] + more);
  }

  /**
   A broken pause has no bound: if the sink closes on an output, any number of packets enter the
   graph before the next resume.
   */
  lemma ClosedSinkBreaksThePause(room: Capacity, k: nat) returns (before: seq<Step>, during: seq<Step>)
    ensures forall a :: a in during ==> KeepsPause(a)
    ensures var c := OneNode(room);
            var s := Play(c, Fresh(c), before);
            && s.Some? && s.value.past.served == [] && !s.value.flags.paused
            && var s' := Play(c, s.value, [Outside(Pause)] + during);
               s'.Some? && |s'.value.past.served| > k
  {
    var c := OneNode(room);
    var s0 := StartsUp(room);
    var s := TakesIn(room, s0, Blank([]));
    PlayJoin(c, Fresh(c), [Begin([0])], TakeIn(Blank([])));
    before := [Begin([0])] + TakeIn(Blank([]));
    var s1 := Apply(c, s, Outside(Pause));
    var s2 := PassesThrough(room, s1);
    var rest := ClosesAndDrains(room, s2, k);
    PlayJoin(c, s1, PassThrough(), rest);
    during := PassThrough() + rest;
    PlayCons(c, s, Outside(Pause), during);
  }
}
