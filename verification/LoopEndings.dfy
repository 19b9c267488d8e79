/** Why the runtime loop comes to an end: nothing but its environment stops it, and a closed source does. */
module LoopEndings {
  import opened Wrappers
  import opened Packets
  import opened Modules
  import opened Walks
  import opened Lifecycles
  import opened ExecutionLoops
  import opened LoopProgress

  /** The main loop is over. */
  predicate Stopping(s: Loop) {
    match s.phase
    case Holding(_, draining) => draining
    case Running(_, draining) => draining
    case Emitting(_, draining) => draining
    case Ended(result) => result.Ok?
    case _ => s.phase.Draining? || s.phase.Closing?
  }

  /** It has been cancelled, its source is closed and empty, or an output found the sink closed. */
  predicate HasCause(s: Loop) {
    s.flags.cancelled || (!s.flags.sourceOpen && s.source == []) || (!s.flags.sinkOpen && s.past.lost)
  }

  lemma CauseStep(c: Setting, s: Loop, a: Step)
    requires Enabled(c, s, a) && (Stopping(s) ==> HasCause(s))
    ensures Stopping(Apply(c, s, a)) ==> HasCause(Apply(c, s, a))
  {
    match a
    case Outside(signal) => CauseSignal(s, signal);
    case Go => CauseGoes(c.room, s);
    case _ => CauseOwn(c, s, a);
  }

  lemma CauseOwn(c: Setting, s: Loop, a: Step)
    requires Enabled(c, s, a) && (Stopping(s) ==> HasCause(s)) && !a.Outside? && !a.Go?
    ensures Stopping(Apply(c, s, a)) ==> HasCause(Apply(c, s, a))
  {
    var s' := Apply(c, s, a);
    assert s'.flags == s.flags && s'.source == s.source && (s.past.lost ==> s'.past.lost);
    assert Stopping(s') ==> Stopping(s);
  }

  lemma CauseSignal(s: Loop, signal: Signal)
    requires Possible(s, signal) && (Stopping(s) ==> HasCause(s))
    ensures Stopping(Signalled(s, signal)) ==> HasCause(Signalled(s, signal))
  {
    var s' := Signalled(s, signal);
    assert Stopping(s') ==> Stopping(s);
  }

  lemma CauseGoes(room: Capacity, s: Loop)
    requires CanGo(room, s) && (Stopping(s) ==> HasCause(s))
    ensures Stopping(Gone(room, s)) ==> HasCause(Gone(room, s))
  {
  }

  lemma {:induction false} CauseRun(c: Setting, s: Loop, schedule: seq<Step>)
    requires Stopping(s) ==> HasCause(s)
    ensures var r := Play(c, s, schedule);
            r.Some? && Stopping(r.value) ==> HasCause(r.value)
    decreases |schedule|
  {
    if schedule != [] && Enabled(c, s, schedule[0]) {
      CauseStep(c, s, schedule[0]);
      CauseRun(c, Apply(c, s, schedule[0]), schedule[1..]);
    }
  }

  /**
   No packet stops the loop: whatever the modules make of it, the main loop goes on until it is cancelled,
   its source is closed and empty, or an output finds the sink closed.
   */
  lemma StopsOnlyForCause(c: Setting, schedule: seq<Step>)
    ensures var r := Play(c, Fresh(c), schedule);
            r.Some? && Stopping(r.value) ==> HasCause(r.value)
  {
    CauseRun(c, Fresh(c), schedule);
  }

  /** Idle, and nothing that the loop looks at calls for anything. */
  predicate Idle(s: Loop) {
    && (s.phase.Parked? || s.phase.AtTop?
        || s.phase.LookingAtCancel? || s.phase.LookingAtPause? || s.phase.LookingAtSource?)
    && s.source == [] && s.flags.sourceOpen && !s.flags.cancelled && !s.flags.paused
  }

  predicate OnlySink(a: Step) {
    match a
    case Outside(signal) => !signal.Offer? && !signal.CloseSource? && !signal.Cancel? && !signal.Pause?
    case _ => true
  }

  lemma IdleStep(c: Setting, s: Loop, a: Step)
    requires Idle(s) && OnlySink(a) && Enabled(c, s, a)
    ensures Idle(Apply(c, s, a))
  {
  }

  /** An idle loop does not notice that its sink is dropped: without another packet it never ends. */
  lemma ClosedSinkGoesUnnoticed(c: Setting, s: Loop, schedule: seq<Step>)
    requires Idle(s) && forall a :: a in schedule ==> OnlySink(a)
    ensures var r := Play(c, s, [Outside(CloseSink)] + schedule);
            r.Some? ==> Idle(r.value) && !r.value.flags.sinkOpen
  {
    PlayCons(c, s, Outside(CloseSink), schedule);
    StaysIdle(c, Apply(c, s, Outside(CloseSink)), schedule);
  }

  lemma {:induction false} StaysIdle(c: Setting, s: Loop, schedule: seq<Step>)
    requires Idle(s) && forall a :: a in schedule ==> OnlySink(a)
    ensures var r := Play(c, s, schedule);
            r.Some? ==> Idle(r.value) && (!s.flags.sinkOpen ==> !r.value.flags.sinkOpen)
    decreases |schedule|
  {
    if schedule != [] && Enabled(c, s, schedule[0]) {
      IdleStep(c, s, schedule[0]);
      StaysIdle(c, Apply(c, s, schedule[0]), schedule[1..]);
    }
  }

  // ----- A closed source --------------------------------------------------

  /** Steps the loop can still make once its source is closed. */
  function Left(s: Loop): nat {
    var left := 8 * |s.source|;
    match s.phase
    case Ended(_) => 0
    case Closing => 1
    case Draining => 2 + left
    case LookingAtSource => 3 + left
    case LookingAtPause => 4 + left
    case LookingAtCancel => 5 + left
    case AtTop => 6 + left
    case Parked => 6 + left
    case Emitting(_, _) => 7 + left
    case Running(_, _) => 8 + left
    case Holding(_, _) => 9 + left
    case Starting => 7 + left
  }

  lemma ClosedGoes(room: Capacity, s: Loop)
    requires !s.flags.sourceOpen && !s.flags.paused && CanGo(room, s)
    ensures Gone(room, s).flags == s.flags && Left(Gone(room, s)) < Left(s)
  {
  }

  lemma ClosedStep(c: Setting, s: Loop, a: Step)
    requires !s.flags.sourceOpen && !s.flags.paused && !a.Outside? && Enabled(c, s, a)
    ensures Apply(c, s, a).flags == s.flags && Left(Apply(c, s, a)) < Left(s)
  {
    if a.Go? { ClosedGoes(c.room, s); }
  }

  /**
   Once its source is closed, and not paused, the loop's own steps are bounded. Where they stop it has
   ended, unless a packet goes round for ever, the sink is full, or somebody else holds the lock.
   */
  lemma {:induction false} ClosedSourceEnds(c: Setting, s: Loop, schedule: seq<Step>)
    requires !s.flags.sourceOpen && !s.flags.paused && forall a :: a in schedule ==> !a.Outside?
    ensures var r := Play(c, s, schedule);
            r.Some? ==>
              && |schedule| <= Left(s)
              && (!CanMove(c, r.value) ==>
                    r.value.phase.Ended? || Circles(c, r.value) || HeldUp(c, r.value) || LockedOut(r.value))
    decreases |schedule|
  {
    if schedule == [] {
      StandsStillExactlyWhen(c, s);
    } else if Enabled(c, s, schedule[0]) {
      ClosedStep(c, s, schedule[0]);
      ClosedSourceEnds(c, Apply(c, s, schedule[0]), schedule[1..]);
    }
  }
}
