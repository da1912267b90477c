// Whole runs of a slave in plain terms: which numbers it counts as done and which
// as skipped, when that reports it broken, what the gate does with the front
// command, and when it is under pressure.

module SlaveRuns {
  import opened Common
  import opened ExecutionQueue
  import opened Lockstep

  datatype Count = Nothing | Done | Skipped

  function CountIf(numbered: bool, count: Count): Count { if numbered then count else Nothing }

  // A turn of the loop that finds this entry in front: what pressure drops and
  // what stands in for a command is done, what is overdue is skipped.
  function AtTurn(s: Slave, e: Entry, expired: bool): Count {
    var c := e.command;
    if (s.globalBackpressure || s.ownBackpressure) && e.queueClass in {Continuous, Aggregated} then
      CountIf(c.ges.Some?, Done)
    else if expired then CountIf(c.ges.Some?, Skipped)
    else CountIf(s.hasPage && c.kind == "NOOP" && IsNextNumber(s, c), Done)
  }

  predicate IsNextNumber(s: Slave, c: Command) {
    c.ges == Some(s.currentGes + 1) || (c.ges.None? && c.altGes == Some(s.currentGes + 1))
  }

  // The end of a command: done only if the simulator answers true, skipped if
  // it answers false, throws, or is never reached.
  function AtEnd(c: Command, outcome: Outcome): Count {
    var numbered := c.ges.Some? || c.altGes.Some?;
    match outcome
    case ReturnedTrue => CountIf(numbered, Done)
    case ReturnedFalse => CountIf(numbered, Skipped)
    case BarrierFailed => CountIf(numbered, Skipped)
    case Threw => CountIf(c.ges.Some?, Skipped)
    case ReturnedOther => Nothing
  }

  function CountOf(s: Slave, ev: Event): Count {
    match ev
    case Turn(expired) =>
      if s.draining && s.inFlight.None? && Peeked(s.buckets).Some? then AtTurn(s, Peeked(s.buckets).value, expired)
      else Nothing
    case Ended(outcome) => if s.inFlight.Some? then AtEnd(s.inFlight.value, outcome) else Nothing
    case WatchdogFires => CountIf(s.watchdog.Some?, Skipped)
    case _ => Nothing
  }

  // The counts of a run, in order; true for a skip.
  function Skips(s: Slave, evs: seq<Event>): seq<bool> {
    if evs == [] then []
    else
      var earlier := evs[..|evs| - 1];
      WithCount(Skips(s, earlier), CountOf(After(s, earlier), evs[|evs| - 1]))
  }

  function WithCount(skips: seq<bool>, count: Count): seq<bool> {
    match count
    case Nothing => skips
    case Done => skips + [false]
    case Skipped => skips + [true]
  }

  // A real discrete command arrives while a hundred wait.
  predicate Floods(s: Slave, ev: Event) {
    ev.Sent? && Classify(ev.command) == Discrete && RealCount(s.buckets.discrete) >= 100
  }

  predicate WasFlooded(s: Slave, evs: seq<Event>) {
    evs != [] &&
      var earlier := evs[..|evs| - 1];
      WasFlooded(s, earlier) || Floods(After(s, earlier), evs[|evs| - 1])
  }

  // Eleven skips in a row.
  ghost predicate ElevenInARow(skips: seq<bool>) { exists from: nat :: ElevenFrom(skips, from) }

  predicate ElevenFrom(skips: seq<bool>, from: nat) { AllSkips(skips, from, from + 11) }

  predicate AllSkips(skips: seq<bool>, from: nat, to: nat) { to <= |skips| && forall j | from <= j < to :: skips[j] }

  // ---------- One event ----------

  // What a count does to the slave's entry in the registry.
  predicate IsCounted(s: Slave, s': Slave, count: Count) {
    match count
    case Nothing => s'.currentGes == s.currentGes && s'.consecutiveGaps == s.consecutiveGaps
    case Done => s'.currentGes == s.currentGes + 1 && s'.consecutiveGaps == 0
    case Skipped =>
      && s'.currentGes == s.currentGes + 1
      && s'.consecutiveGaps == if s.consecutiveGaps >= 10 then 0 else s.consecutiveGaps + 1
  }

  // The count is the eleventh skip in a row.
  predicate Breaks(s: Slave, count: Count) { count == Skipped && s.consecutiveGaps >= 10 }

  predicate IsCountedStep(s: Slave, ev: Event, s': Slave, count: Count) {
    && IsCounted(s, s', count)
    && (s'.broken <==> s.broken || Breaks(s, count) || Floods(s, ev))
    && (Floods(s, ev) ==> count == Nothing)
  }

  lemma IncrementCounts(s: Slave, ges: Option<int>, isGapSkip: bool)
    ensures var s', count := IncrementedFor(s, ges, isGapSkip), CountIf(ges.Some?, if isGapSkip then Skipped else Done);
      IsCounted(s, s', count) && (s'.broken <==> s.broken || Breaks(s, count))
  {
  }

  lemma {:induction false} GateCounts(s: Slave, c: Command)
    ensures var s', count := Gated(s, c).0, CountIf(c.kind == "NOOP" && IsNextNumber(s, c), Done);
      IsCounted(s, s', count) && s'.broken == s.broken
  {
    var s' := s.(buckets := Dequeued(AfterPurge(s, c)));
    IncrementCounts(s', GateGes(c), false);
    IncrementCounts(s'.(watchdog := None), GateGes(c), false);
  }

  lemma {:induction false} TurnCounts(s: Slave, e: Entry, expired: bool)
    requires Peeked(s.buckets) == Some(e)
    ensures var s', count := Take(s, expired).0, AtTurn(s, e, expired);
      IsCounted(s, s', count) && (s'.broken <==> s.broken || Breaks(s, count))
  {
    IncrementCounts(s.(buckets := Dequeued(s.buckets)), e.command.ges, false);
    IncrementCounts(s.(buckets := Dequeued(s.buckets)), e.command.ges, true);
    GateCounts(s, e.command);
  }

  lemma {:induction false} EndCounts(s: Slave, outcome: Outcome)
    requires s.inFlight.Some?
    ensures var s', count := Finished(s, outcome), AtEnd(s.inFlight.value, outcome);
      IsCounted(s, s', count) && (s'.broken <==> s.broken || Breaks(s, count))
  {
    var c := s.inFlight.value;
    IncrementCounts(s.(inFlight := None), GateGes(c), false);
    IncrementCounts(s.(inFlight := None), GateGes(c), true);
    IncrementCounts(s.(inFlight := None), c.ges, true);
  }

  lemma {:induction false} ArrivalCounts(s: Slave, c: Command)
    ensures var s' := Enqueued(s, c);
      IsCounted(s, s', Nothing) && (s'.broken <==> s.broken || Floods(s, Sent(c)))
  {
  }

  lemma {:induction false} TurnStepCounts(s: Slave, expired: bool)
    ensures IsCountedStep(s, Turn(expired), Step(s, Turn(expired)), CountOf(s, Turn(expired)))
  {
    if Peeked(s.buckets).Some? { TurnCounts(s, Peeked(s.buckets).value, expired); }
  }

  lemma {:induction false} EndStepCounts(s: Slave, outcome: Outcome)
    ensures IsCountedStep(s, Ended(outcome), Step(s, Ended(outcome)), CountOf(s, Ended(outcome)))
  {
    if s.inFlight.Some? { EndCounts(s, outcome); }
  }

  lemma {:induction false} StepCounts(s: Slave, ev: Event)
    ensures IsCountedStep(s, ev, Step(s, ev), CountOf(s, ev))
  {
    match ev {
      case Sent(c) => ArrivalCounts(s, c);
      case Turn(expired) => TurnStepCounts(s, expired);
      case Ended(outcome) => EndStepCounts(s, outcome);
      case WatchdogFires => IncrementCounts(s.(watchdog := None), Some(0), true);
      case _ =>
    }
  }

  // ---------- Whole runs ----------

  lemma LongRunIsEleven(skips: seq<bool>)
    ensures HadLongRun(skips) <==> ElevenInARow(skips)
    decreases |skips|
  {
    if skips != [] {
      var n := |skips| - 1;
      var earlier := skips[..n];
      LongRunIsEleven(earlier);
      TrailIsAllSkips(skips);
      if ElevenInARow(earlier) {
        var i: nat :| ElevenFrom(earlier, i);
        assert ElevenFrom(skips, i);
      }
      if TrailingSkips(skips) > MAX_GAPS {
        assert ElevenFrom(skips, |skips| - 11);
      }
      if ElevenInARow(skips) && !ElevenInARow(earlier) {
        var i: nat :| ElevenFrom(skips, i);
        assert i + 11 < |skips| ==> ElevenFrom(earlier, i);
        AllSkipsTrail(skips, i);
      }
    }
  }

  lemma {:induction false} TrailIsAllSkips(skips: seq<bool>)
    ensures TrailingSkips(skips) <= |skips| && AllSkips(skips, |skips| - TrailingSkips(skips), |skips|)
    decreases |skips|
  {
    if skips != [] { TrailIsAllSkips(skips[..|skips| - 1]); }
  }

  lemma {:induction false} AllSkipsTrail(skips: seq<bool>, from: nat)
    requires from <= |skips| && AllSkips(skips, from, |skips|)
    ensures TrailingSkips(skips) >= |skips| - from
    decreases |skips|
  {
    if from < |skips| {
      AllSkipsTrail(skips[..|skips| - 1], from);
    }
  }

  // Over every run of a slave that starts without gaps: it advances by one for
  // each count, its gap counter is the number of skips since the last number
  // done, modulo eleven, and it is reported broken exactly when eleven skips came
  // in a row or a command found the discrete queue full.
  lemma {:induction false} EveryRunCountsSkips(s: Slave, evs: seq<Event>)
    requires s.consecutiveGaps == 0 && !s.broken
    ensures After(s, evs).currentGes == s.currentGes + |Skips(s, evs)|
    ensures After(s, evs).consecutiveGaps == TrailingSkips(Skips(s, evs)) % 11
    ensures After(s, evs).broken <==> ElevenInARow(Skips(s, evs)) || WasFlooded(s, evs)
  {
    RunCounts(s, evs);
    LongRunIsEleven(Skips(s, evs));
  }

  // The slave after a run with these counts.
  predicate HasCounted(start: nat, s: Slave, skips: seq<bool>, flooded: bool) {
    && s.currentGes == start + |skips|
    && s.consecutiveGaps == TrailingSkips(skips) % 11
    && (s.broken <==> HadLongRun(skips) || flooded)
  }

  lemma {:induction false} RunCounts(s: Slave, evs: seq<Event>)
    requires s.consecutiveGaps == 0 && !s.broken
    ensures HasCounted(s.currentGes, After(s, evs), Skips(s, evs), WasFlooded(s, evs))
    decreases |evs|
  {
    if evs != [] {
      var earlier, last := evs[..|evs| - 1], evs[|evs| - 1];
      var was := After(s, earlier);
      RunCounts(s, earlier);
      StepCounts(was, last);
      OneMoreCount(s.currentGes, was, Step(was, last), Skips(s, earlier), CountOf(was, last),
        WasFlooded(s, earlier), Floods(was, last));
    }
  }

  lemma OneMoreCount(
      start: nat, s: Slave, s': Slave, skips: seq<bool>, count: Count, flooded: bool, floods: bool)
    requires HasCounted(start, s, skips, flooded) && IsCounted(s, s', count)
    requires s'.broken <==> s.broken || Breaks(s, count) || floods
    ensures HasCounted(start, s', WithCount(skips, count), flooded || floods)
  {
    assert (skips + [true])[..|skips|] == skips && (skips + [false])[..|skips|] == skips;
    LongTrailIsLongRun(skips);
  }

  // An eleventh skip in a row cancels the watchdog.
  lemma BreakingCancelsWatchdog(s: Slave, ev: Event)
    requires !s.broken && Step(s, ev).broken && (ev.Turn? ==> CountOf(s, ev) == Skipped)
    ensures Step(s, ev).watchdog == None
  {
  }

  // ---------- The gate ----------

  // The front is neither dropped by pressure nor overdue, and there is a page.
  predicate ReachesGate(s: Slave, e: Entry) {
    && Peeked(s.buckets) == Some(e) && s.hasPage
    && !((s.globalBackpressure || s.ownBackpressure) && e.queueClass in {Continuous, Aggregated})
    && e.command.altGes.None?
  }

  // A command ahead of its turn waits: the queues stay as they are, the loop stops,
  // and a watchdog is set for its number. Nothing is counted or sent off.
  lemma AheadWaits(s: Slave, e: Entry)
    requires ReachesGate(s, e) && e.command.ges.Some? && e.command.ges.value > s.currentGes + 1
    ensures Take(s, false).0 == s.(draining := false, watchdog := e.command.ges)
  {
  }

  // A command behind its turn is thrown out without being counted or sent off.
  lemma BehindIsRejected(s: Slave, e: Entry)
    requires ReachesGate(s, e) && e.command.ges.Some? && e.command.ges.value <= s.currentGes
    requires !IsNavigation(e.command)
    ensures Take(s, false).0 == s.(buckets := Dequeued(s.buckets))
  {
  }

  // A command in its turn, or without a number, leaves the queue: a stand-in is
  // counted at once, any other is sent off. If numbered, it cancels the watchdog.
  lemma InTurnRuns(s: Slave, e: Entry)
    requires ReachesGate(s, e) && (e.command.ges.None? || e.command.ges.value == s.currentGes + 1)
    requires !IsNavigation(e.command)
    ensures var s' := Take(s, false).0;
      && s'.buckets == Dequeued(s.buckets) && s'.draining == s.draining
      && s'.watchdog == (if e.command.ges.Some? then None else s.watchdog)
      && s'.inFlight == (if e.command.kind == "NOOP" then s.inFlight else Some(e.command))
      && s'.currentGes == s.currentGes + if e.command.kind == "NOOP" && e.command.ges.Some? then 1 else 0
  {
  }

  // When the watchdog of a waiting command fires, one number is skipped and the
  // loop runs again.
  lemma WatchdogResumes(s: Slave)
    requires s.watchdog.Some?
    ensures var s' := Step(s, WatchdogFires);
      s'.draining && s'.watchdog == None && s'.currentGes == s.currentGes + 1 && s'.buckets == s.buckets
  {
  }

  // Navigations, and nothing else, sweep the queues when their turn has come.
  lemma NavigationsSweep(s: Slave, e: Entry)
    requires ReachesGate(s, e) && (e.command.kind == "navigate" || e.command.category == "Navigation")
    requires e.command.ges.None? || e.command.ges.value == s.currentGes + 1
    ensures Take(s, false).0.buckets == Dequeued(Navigated(s.buckets))
  {
    IncrementKeepsQueues(s.(buckets := Dequeued(Navigated(s.buckets))), e.command.ges);
    IncrementKeepsQueues(s.(buckets := Dequeued(Navigated(s.buckets)), watchdog := None), e.command.ges);
  }

  lemma IncrementKeepsQueues(s: Slave, ges: Option<int>)
    ensures IncrementedFor(s, ges, false).buckets == s.buckets
  {
  }

  // ---------- Pressure ----------

  // The last word on global pressure, or on the slave's own.
  function LastPressure(initially: bool, evs: seq<Event>, own: bool): bool {
    if evs == [] then initially
    else
      match evs[|evs| - 1]
      case GlobalPressure(active) => if own then LastPressure(initially, evs[..|evs| - 1], own) else active
      case OwnPressure(active) => if own then active else LastPressure(initially, evs[..|evs| - 1], own)
      case _ => LastPressure(initially, evs[..|evs| - 1], own)
  }

  // Over every run a slave is under pressure exactly when the last word on either
  // kind says so.
  lemma {:induction false} PressureFollowsEvents(s: Slave, evs: seq<Event>)
    ensures IsPressed(After(s, evs)) <==>
      LastPressure(s.globalBackpressure, evs, false) || LastPressure(s.ownBackpressure, evs, true)
    ensures After(s, evs).globalBackpressure == LastPressure(s.globalBackpressure, evs, false)
    ensures After(s, evs).ownBackpressure == LastPressure(s.ownBackpressure, evs, true)
  {
    if evs != [] {
      PressureFollowsEvents(s, evs[..|evs| - 1]);
      StepKeepsPressure(After(s, evs[..|evs| - 1]), evs[|evs| - 1]);
    }
  }

  predicate SamePressure(s: Slave, s': Slave) {
    s'.globalBackpressure == s.globalBackpressure && s'.ownBackpressure == s.ownBackpressure
  }

  lemma {:induction false} StepKeepsPressure(s: Slave, ev: Event)
    ensures var s' := Step(s, ev);
      && s'.globalBackpressure == (if ev.GlobalPressure? then ev.active else s.globalBackpressure)
      && s'.ownBackpressure == (if ev.OwnPressure? then ev.active else s.ownBackpressure)
  {
    match ev {
      case Sent(c) => ArrivalKeepsPressure(s, c);
      case Turn(expired) => TurnKeepsPressure(s, expired);
      case Ended(outcome) => if s.inFlight.Some? { EndKeepsPressure(s, outcome); }
      case _ =>
    }
  }

  lemma ArrivalKeepsPressure(s: Slave, c: Command)
    ensures SamePressure(s, Enqueued(s, c))
  {
  }

  lemma EndKeepsPressure(s: Slave, outcome: Outcome)
    requires s.inFlight.Some?
    ensures SamePressure(s, Finished(s, outcome))
  {
  }

  lemma TurnKeepsPressure(s: Slave, expired: bool)
    ensures SamePressure(s, Take(s, expired).0)
  {
    if Peeked(s.buckets).Some? { GateKeepsPressure(s, Peeked(s.buckets).value.command); }
  }

  lemma GateKeepsPressure(s: Slave, c: Command)
    ensures SamePressure(s, Gated(s, c).0)
  {
  }

  // Under pressure a hover or scroll that arrives is replaced by a stand-in for
  // its number, and what is in the hover and scroll queues is swept.
  lemma PressureReplaces(s: Slave, c: Command)
    requires (s.globalBackpressure || s.ownBackpressure) && Classify(c) in {Continuous, Aggregated}
    ensures var s' := Step(s, Sent(c));
      && s' == s.(buckets := s.buckets.(discrete := s'.buckets.discrete))
      && multiset(s'.buckets.discrete) == multiset(s.buckets.discrete) + multiset{Noop(c.ges)}
      && Sorted(s'.buckets.discrete)
  {
    SortSorts(s.buckets.discrete + [Noop(c.ges)]);
  }

  lemma PressureEmpties(s: Slave, ev: Event)
    requires ev == GlobalPressure(true) || ev == OwnPressure(true)
    ensures Step(s, ev).buckets.continuous == [] && Step(s, ev).buckets.aggregated == []
  {
  }
}
