// Recovery from gaps: whatever numbers a slave's queues hold and in whatever
// order, draining and watchdog firings together empty them, under every schedule
// of expiring deadlines, and only an expiry takes a number the slave never reaches.

module GapRecovery {
  import opened Common
  import opened ExecutionQueue
  import opened Lockstep

  // The navigations in the queue are critical or discrete, as the dispatcher sends them.
  ghost predicate NavigationsAreDiscrete(b: Buckets) {
    && (forall i | 0 <= i < |b.aggregated| :: !IsNavigation(b.aggregated[i].command))
    && (forall i | 0 <= i < |b.continuous| :: !IsNavigation(b.continuous[i].command))
  }

  ghost predicate PlainBuckets(b: Buckets) {
    Plain(b.critical) && Plain(b.discrete) && Plain(b.aggregated) && Plain(b.continuous)
  }

  // A slave left to itself: a page, and nothing in flight.
  ghost predicate AtRest(s: Slave) {
    s.hasPage && s.inFlight.None? && PlainBuckets(s.buckets) && NavigationsAreDiscrete(s.buckets)
  }

  // How far the front's number is ahead of the slave's.
  function Distance(s: Slave): nat {
    match Peeked(s.buckets)
    case Some(e) =>
      if GateGes(e.command).Some? && GateGes(e.command).value > s.currentGes
      then GateGes(e.command).value - s.currentGes else 0
    case None => 0
  }

  // Any answer of the simulator that moves the slave on.
  ghost predicate Answers(outcome: Command -> Outcome) {
    forall c :: outcome(c) != ReturnedOther
  }

  // One turn, with the end of the command it sends off, or the watchdog of the
  // command it finds blocked; `late` says that the front's deadline has passed.
  function Turned(s: Slave, outcome: Command -> Outcome, late: bool): Slave {
    var (s', t) := Take(s, late);
    if t == Dispatched then Finished(s', outcome(s'.inFlight.value))
    else if t == Blocked then WatchdogFired(s')
    else s'
  }

  // The front is taken out without being run: its deadline has passed, or it is
  // a hover or scroll under pressure.
  predicate IsOverdue(s: Slave, late: bool)
    requires Peeked(s.buckets).Some?
  {
    late || (IsPressed(s) && IsDroppable(Peeked(s.buckets).value.queueClass))
  }

  // The number that leaves the queues in this turn although the slave has not
  // come to it: a blocked front that is overdue.
  function LostNow(s: Slave, late: bool): Option<int> {
    if Peeked(s.buckets).Some? && IsOverdue(s, late) && Evaluate(s.currentGes, FrontGes(s)) == Waiting
    then FrontGes(s) else None
  }

  function FrontGes(s: Slave): Option<int> {
    if Peeked(s.buckets).Some? then Peeked(s.buckets).value.command.ges else None
  }

  lemma {:induction false} NavigationShrinks(b: Buckets)
    ensures Navigated(b).Size() <= b.Size()
  {
    FillersAreFewer(b.continuous + b.aggregated + Casualties(b.discrete));
    SplitSize(b.discrete);
  }

  // The queue after a turn that took something out.
  function Rest(s: Slave): Buckets
    requires Peeked(s.buckets).Some?
  {
    Dequeued(AfterPurge(s, Peeked(s.buckets).value.command))
  }

  lemma {:induction false} RestIsSmaller(s: Slave)
    requires Peeked(s.buckets).Some?
    ensures Rest(s).Size() < s.buckets.Size()
  {
    var purged := AfterPurge(s, Peeked(s.buckets).value.command);
    NavigationShrinks(s.buckets);
    SelectedIsFirst(s.buckets, Critical);
    SelectedIsFirst(purged, Critical);
    if Selected(purged).Some? {
      DequeueTakesOne(purged, 0);
    }
  }

  lemma {:induction false} NavigationStaysPlain(b: Buckets)
    requires PlainBuckets(b)
    ensures PlainBuckets(Navigated(b)) && NavigationsAreDiscrete(Navigated(b))
  {
    SubqueuesArePlain(b.discrete);
    PlainFillers(b.continuous + b.aggregated + Casualties(b.discrete));
    ConcatIsPlain(Survivors(b.discrete), Fillers(b.continuous + b.aggregated + Casualties(b.discrete)));
  }

  lemma {:induction false} RestStaysPlain(s: Slave)
    requires AtRest(s) && Peeked(s.buckets).Some?
    ensures PlainBuckets(Rest(s)) && NavigationsAreDiscrete(Rest(s))
  {
    NavigationStaysPlain(s.buckets);
    DequeueStaysPlain(AfterPurge(s, Peeked(s.buckets).value.command));
  }

  lemma {:induction false} DequeueStaysPlain(b: Buckets)
    requires PlainBuckets(b) && NavigationsAreDiscrete(b)
    ensures PlainBuckets(Dequeued(b)) && NavigationsAreDiscrete(Dequeued(b))
  {
  }

  // Whatever the purge does to the front, a number that leaves the queues in an
  // aligned or stale turn is no higher than the one the turn was about.
  lemma {:induction false} RestLosesOnlyOld(s: Slave, g: int)
    requires AtRest(s) && Peeked(s.buckets).Some?
    requires var front := Peeked(s.buckets).value.command.ges;
      front.None? || front.value <= s.currentGes + 1
    requires var front := Peeked(s.buckets).value.command.ges;
      front.None? || g > front.value
    ensures Rest(s).Holds(g) == s.buckets.Holds(g)
  {
    var b := s.buckets;
    var e := Peeked(b).value;
    var purged := AfterPurge(s, e.command);
    PurgesConserve(b, g);
    if Selected(purged).Some? {
      DequeueTakesOne(purged, g);
      if purged != b {
        TakenAfterPurge(b, e);
      }
    }
  }

  // After a purge, what is taken is unnumbered or no later than the navigation.
  lemma {:induction false} TakenAfterPurge(b: Buckets, e: Entry)
    requires Peeked(b) == Some(e) && IsNavigation(e.command) && NavigationsAreDiscrete(b)
    ensures var after := Navigated(b);
      Peeked(after).Some? ==>
      match (Peeked(after).value.command.ges, e.command.ges)
      case (Some(taken), Some(due)) => taken <= due
      case (Some(taken), None) => false
      case (None, _) => true
  {
    var after := Navigated(b);
    var cls := Selected(b).value;
    assert cls == Critical || cls == Discrete;
    if cls == Discrete {
      FirstSurvivor(b.discrete);
    }
    assert after.Of(cls) != [] && after.Of(cls)[0] == e;
    SelectedIsFirst(after, cls);
  }

  // The shapes of a turn, by the front's deadline and what the gate says about it.
  ghost predicate HasTurned(s: Slave, s': Slave, late: bool)
    requires Peeked(s.buckets).Some?
  {
    var one := if FrontGes(s).Some? then 1 else 0;
    && s'.hasPage && s'.inFlight.None?
    && if IsOverdue(s, late) then s'.buckets == Dequeued(s.buckets) && s'.currentGes == s.currentGes + one
       else match Evaluate(s.currentGes, FrontGes(s))
         case Aligned => s'.buckets == Rest(s) && s'.currentGes == s.currentGes + one
         case Stale => s'.buckets == Rest(s) && s'.currentGes == s.currentGes
         case Waiting => s'.buckets == s.buckets && s'.currentGes == s.currentGes + 1
  }

  lemma {:induction false} TurnShape(s: Slave, outcome: Command -> Outcome, late: bool)
    requires AtRest(s) && Answers(outcome) && Peeked(s.buckets).Some?
    ensures HasTurned(s, Turned(s, outcome, late), late)
  {
    var c := Peeked(s.buckets).value.command;
    FrontIsPlain(s.buckets);
    if IsOverdue(s, late) {
      CountedFor(s.(buckets := Dequeued(s.buckets)), c.ges, false);
      CountedFor(s.(buckets := Dequeued(s.buckets)), c.ges, true);
    } else {
      GatedShape(s, outcome, c);
    }
  }

  lemma {:induction false} GatedShape(s: Slave, outcome: Command -> Outcome, c: Command)
    requires AtRest(s) && Answers(outcome) && Peeked(s.buckets).Some? && c == Peeked(s.buckets).value.command
    requires !IsOverdue(s, false) && c.altGes.None?
    ensures var s' := Turned(s, outcome, false);
      && s'.hasPage && s'.inFlight.None?
      && match Evaluate(s.currentGes, c.ges)
         case Aligned => s'.buckets == Rest(s) && s'.currentGes == s.currentGes + if c.ges.Some? then 1 else 0
         case Stale => s'.buckets == Rest(s) && s'.currentGes == s.currentGes
         case Waiting => s'.buckets == s.buckets && s'.currentGes == s.currentGes + 1
  {
    if Evaluate(s.currentGes, c.ges) == Aligned {
      AlignedShape(s, outcome, c);
    }
  }

  lemma {:induction false} AlignedShape(s: Slave, outcome: Command -> Outcome, c: Command)
    requires AtRest(s) && Answers(outcome) && Peeked(s.buckets).Some? && c == Peeked(s.buckets).value.command
    requires !IsOverdue(s, false) && c.altGes.None? && Evaluate(s.currentGes, c.ges) == Aligned
    ensures var s' := Turned(s, outcome, false);
      && s'.hasPage && s'.inFlight.None? && s'.buckets == Rest(s)
      && s'.currentGes == s.currentGes + if c.ges.Some? then 1 else 0
  {
    assert outcome(c) != ReturnedOther;
    var s' := s.(buckets := Rest(s), watchdog := if c.ges.Some? then None else s.watchdog);
    if c.kind == "NOOP" {
      CountedFor(s', c.ges, false);
      assert Take(s, false) == (IncrementedFor(s', c.ges, false), FastNoop);
    } else {
      assert Take(s, false) == (s'.(inFlight := Some(c)), Dispatched);
      var landed := LandedState(s'.(inFlight := Some(c)), outcome(c));
      EndKeepsPage(s'.(inFlight := Some(c)), outcome(c));
    }
  }

  lemma {:induction false} EndKeepsPage(s: Slave, outcome: Outcome)
    requires s.inFlight.Some?
    ensures Finished(s, outcome).hasPage == s.hasPage && (IsPressed(Finished(s, outcome)) <==> IsPressed(s))
  {
  }

  lemma {:induction false} FrontIsPlain(b: Buckets)
    requires PlainBuckets(b) && Peeked(b).Some?
    ensures Peeked(b).value.command.altGes.None?
  {
  }

  lemma {:induction false} TurnStaysAtRest(s: Slave, outcome: Command -> Outcome, late: bool)
    requires AtRest(s) && Answers(outcome) && Peeked(s.buckets).Some?
    ensures AtRest(Turned(s, outcome, late))
    ensures Turned(s, outcome, late).buckets.Size() < s.buckets.Size()
      || (Turned(s, outcome, late).buckets.Size() == s.buckets.Size()
          && Distance(Turned(s, outcome, late)) < Distance(s))
  {
    TurnShape(s, outcome, late);
    RestStaysPlain(s);
    RestIsSmaller(s);
    DequeueStaysPlain(s.buckets);
    DequeueTakesOne(s.buckets, 0);
  }

  // A turn brings no new number, and a number above the slave's leaves only by
  // being lost.
  ghost predicate TurnIsFair(s: Slave, s': Slave, late: bool) {
    && s.currentGes <= s'.currentGes <= s.currentGes + 1
    && (forall g :: s'.buckets.Holds(g) <= s.buckets.Holds(g))
    && (forall g | g > s'.currentGes :: s'.buckets.Holds(g) + One(LostNow(s, late), g) == s.buckets.Holds(g))
  }

  lemma {:induction false} FrontIsHeld(b: Buckets)
    requires Peeked(b).Some? && Peeked(b).value.command.ges.Some?
    ensures b.Holds(Peeked(b).value.command.ges.value) >= 1
  {
  }

  lemma {:induction false} RestHoldsNoMore(s: Slave, g: int)
    requires Peeked(s.buckets).Some?
    ensures Rest(s).Holds(g) <= s.buckets.Holds(g)
  {
    var purged := AfterPurge(s, Peeked(s.buckets).value.command);
    PurgesConserve(s.buckets, g);
    if Selected(purged).Some? {
      DequeueTakesOne(purged, g);
    }
  }

  lemma {:induction false} TurnedIsFair(s: Slave, s': Slave, late: bool)
    requires AtRest(s) && Peeked(s.buckets).Some? && HasTurned(s, s', late)
    ensures TurnIsFair(s, s', late)
    ensures forall g :: s'.buckets.Holds(g) + One(LostNow(s, late), g) <= s.buckets.Holds(g)
  {
    forall g ensures s'.buckets.Holds(g) + One(LostNow(s, late), g) <= s.buckets.Holds(g) {
      RestHoldsNoMore(s, g);
      DequeueTakesOne(s.buckets, g);
    }
    forall g | g > s'.currentGes ensures s'.buckets.Holds(g) + One(LostNow(s, late), g) == s.buckets.Holds(g) {
      DequeueTakesOne(s.buckets, g);
      if !IsOverdue(s, late) && Evaluate(s.currentGes, FrontGes(s)) != Waiting {
        RestLosesOnlyOld(s, g);
      }
    }
  }

  lemma {:induction false} TurnsAreFair(s: Slave, outcome: Command -> Outcome, late: bool)
    requires AtRest(s) && Answers(outcome) && Peeked(s.buckets).Some?
    ensures TurnIsFair(s, Turned(s, outcome, late), late)
  {
    TurnShape(s, outcome, late);
    TurnedIsFair(s, Turned(s, outcome, late), late);
  }

  // Whether the front's deadline has passed, turn by turn.
  type Deadlines = nat -> bool

  // Draining, and letting the watchdog fire whenever the front is blocked, until nothing waits.
  ghost function Settled(s: Slave, outcome: Command -> Outcome, late: Deadlines, turn: nat): Slave
    requires AtRest(s) && Answers(outcome)
    decreases s.buckets.Size(), Distance(s)
  {
    if Peeked(s.buckets).None? then s
    else
      TurnStaysAtRest(s, outcome, late(turn));
      Settled(Turned(s, outcome, late(turn)), outcome, late, turn + 1)
  }

  // How often a number is lost on the way.
  ghost function Lost(s: Slave, outcome: Command -> Outcome, late: Deadlines, turn: nat, g: int): nat
    requires AtRest(s) && Answers(outcome)
    decreases s.buckets.Size(), Distance(s)
  {
    if Peeked(s.buckets).None? then 0
    else
      TurnStaysAtRest(s, outcome, late(turn));
      One(LostNow(s, late(turn)), g) + Lost(Turned(s, outcome, late(turn)), outcome, late, turn + 1, g)
  }

  // Under every schedule of deadlines and any pressure the queues empty. A
  // number the slave has not reached in the end was lost exactly as often as it
  // was held: at a turn at which it was the front, more than one ahead, and overdue.
  lemma {:induction false} EveryScheduleSettles(s: Slave, outcome: Command -> Outcome, late: Deadlines, turn: nat)
    requires AtRest(s) && Answers(outcome)
    ensures var end := Settled(s, outcome, late, turn);
      && end.buckets.Size() == 0
      && end.currentGes >= s.currentGes
      && (forall g | g > end.currentGes :: Lost(s, outcome, late, turn, g) == s.buckets.Holds(g))
      && (forall g :: Lost(s, outcome, late, turn, g) <= s.buckets.Holds(g))
    decreases s.buckets.Size(), Distance(s)
  {
    SelectedIsFirst(s.buckets, Critical);
    if Peeked(s.buckets).Some? {
      var next := Turned(s, outcome, late(turn));
      TurnStaysAtRest(s, outcome, late(turn));
      TurnShape(s, outcome, late(turn));
      TurnedIsFair(s, next, late(turn));
      EveryScheduleSettles(next, outcome, late, turn + 1);
    }
  }

  // A turn in which nothing is overdue loses no number above the slave's, and
  // does not outrun the numbers held.
  ghost predicate TurnIsQuiet(s: Slave, s': Slave) {
    && s.currentGes <= s'.currentGes
    && (forall g | s'.buckets.Holds(g) >= 1 :: s.buckets.Holds(g) >= 1)
    && (forall g | s.buckets.Holds(g) >= 1 && g > s'.currentGes :: s'.buckets.Holds(g) >= 1)
    && (|| s'.currentGes == s.currentGes
        || s.buckets.Holds(s'.currentGes) >= 1
        || exists g :: g > s'.currentGes && s'.buckets.Holds(g) >= 1)
  }

  lemma {:induction false} TurnedIsQuiet(s: Slave, s': Slave)
    requires AtRest(s) && Peeked(s.buckets).Some? && !IsOverdue(s, false) && HasTurned(s, s', false)
    ensures TurnIsQuiet(s, s')
  {
    TurnedIsFair(s, s', false);
    forall g ensures One(LostNow(s, false), g) == 0 {}
    if FrontGes(s).Some? {
      FrontIsHeld(s.buckets);
      assert s'.buckets == s.buckets ==> s'.buckets.Holds(FrontGes(s).value) >= 1;
    }
  }

  // As long as no deadline passes and nothing is dropped, no gap and no disorder
  // blocks a slave for ever: it ends at the highest number it or its queues held.
  lemma {:induction false} EveryGapIsRecovered(s: Slave, outcome: Command -> Outcome, late: Deadlines, turn: nat)
    requires AtRest(s) && Answers(outcome) && !IsPressed(s) && forall k :: !late(k)
    ensures var end := Settled(s, outcome, late, turn);
      && end.currentGes >= s.currentGes
      && (forall g | s.buckets.Holds(g) >= 1 :: g <= end.currentGes)
      && (end.currentGes == s.currentGes || s.buckets.Holds(end.currentGes) >= 1)
    decreases s.buckets.Size(), Distance(s)
  {
    SelectedIsFirst(s.buckets, Critical);
    if Peeked(s.buckets).Some? {
      TurnStaysAtRest(s, outcome, false);
      TurnShape(s, outcome, false);
      TurnedIsQuiet(s, Turned(s, outcome, false));
      TurnKeepsPressure(s, outcome);
      assert late(turn) == false;
      EveryGapIsRecovered(Turned(s, outcome, false), outcome, late, turn + 1);
    } else {
      forall g ensures s.buckets.Holds(g) == 0 {}
    }
  }

  lemma {:induction false} TurnKeepsPressure(s: Slave, outcome: Command -> Outcome)
    requires AtRest(s) && Answers(outcome) && Peeked(s.buckets).Some? && !IsPressed(s)
    ensures !IsPressed(Turned(s, outcome, false))
  {
    var s' := Take(s, false).0;
    if Take(s, false).1 == Dispatched {
      EndKeepsPage(s', outcome(s'.inFlight.value));
    }
  }

  // A front too far ahead does not wait for the watchdog: a click numbered 5
  // that expires at a slave that has done nothing is gone, and the slave is at 1.
  lemma {:induction false} ExpiredFrontIsLost(s: Slave)
    requires s == JUST_STARTED.(buckets := EMPTY.(discrete := [Plainly("CLICK", 5)]))
    ensures LostNow(s, true) == Some(5) && Take(s, true).0.currentGes == 1
    ensures Take(s, true).0.buckets.Size() == 0
  {
    DequeueTakesOne(s.buckets, 5);
  }
}
