// The scheduler's objects for one slave: the queue manager, the slave's entry
// in the state registry, and the drain loop, each proved against the protocol.

module ExecutionScheduler {
  import opened Common
  import opened ExecutionQueue
  import opened Lockstep
  import opened GapRecovery

  lemma {:induction false} FillersOfAppend(dropped: seq<Entry>, e: Entry)
    ensures Fillers(dropped + [e]) == Fillers(dropped) + if e.command.ges.Some? then [Noop(e.command.ges)] else []
  {
    if dropped == [] {
      assert [e][1..] == [];
      assert dropped + [e] == [e];
    } else {
      assert (dropped + [e])[1..] == dropped[1..] + [e];
      FillersOfAppend(dropped[1..], e);
    }
  }

  class QueueManager {
    var critical: seq<Entry>
    var discrete: seq<Entry>
    var aggregated: seq<Entry>
    var continuous: seq<Entry>

    function Contents(): Buckets
      reads this
    {
      Buckets(critical, discrete, aggregated, continuous)
    }

    constructor ()
      ensures Contents() == EMPTY
    {
      critical, discrete, aggregated, continuous := [], [], [], [];
    }

    method PushFillers(dropped: seq<Entry>) returns (sortRequired: bool)
      modifies this`discrete
      ensures discrete == old(discrete) + Fillers(dropped)
      ensures sortRequired <==> Fillers(dropped) != []
    {
      sortRequired := false;
      assert dropped[..0] == [];
      for i := 0 to |dropped|
        invariant discrete == old(discrete) + Fillers(dropped[..i])
        invariant sortRequired <==> Fillers(dropped[..i]) != []
      {
        assert dropped[..i + 1] == dropped[..i] + [dropped[i]];
        FillersOfAppend(dropped[..i], dropped[i]);
        if dropped[i].command.ges.Some? {
          discrete := discrete + [Noop(dropped[i].command.ges)];
          sortRequired := true;
        }
      }
      assert dropped[..|dropped|] == dropped;
    }

    method FillAndSort(dropped: seq<Entry>)
      modifies this`discrete
      ensures discrete == Filled(old(discrete), dropped)
    {
      var sortRequired := PushFillers(dropped);
      if sortRequired {
        discrete := SortByGes(discrete);
      }
    }

    // The scheduling policy on one bucket; what it displaces is handed back.
    method Apply(cls: QueueClass, e: Entry) returns (dropped: seq<Entry>)
      modifies this
      ensures var (bucket, lost) := Applied(old(Contents()).Of(cls), cls, e);
        Contents() == old(Contents()).With(cls, bucket) && dropped == lost
    {
      dropped := [];
      match cls {
        case Critical => critical := critical + [e];
        case Discrete => discrete := discrete + [e];
        case Continuous =>
          if |continuous| > 0 {
            dropped := [continuous[0]];
            continuous := continuous[0 := e];
          } else {
            continuous := [e];
          }
        case Aggregated =>
          if |aggregated| == 0 {
            aggregated := aggregated + [e];
          } else if IsDeltaScroll(e.command) {
            if aggregated[0].command.payload.Some? && e.command.payload.Some? {
              aggregated := aggregated[0 := Coalesced(aggregated[0], e)];
              dropped := [e];
            }
          } else {
            dropped := [aggregated[0]];
            aggregated := aggregated[0 := e];
          }
      }
    }

    // Refuses exactly when the discrete queue is full of real commands.
    method Insert(cls: QueueClass, e: Entry) returns (ok: bool)
      modifies this
      ensures ok <==> !Overflows(old(Contents()), cls)
      ensures Contents() == if ok then Inserted(old(Contents()), cls, e) else old(Contents())
    {
      if cls == Discrete && RealCount(discrete) >= DISCRETE_LIMIT {
        return false;
      }
      var dropped := Apply(cls, e);
      FillAndSort(dropped);
      ok := true;
    }

    method PeekNext() returns (e: Option<Entry>)
      ensures e == Peeked(Contents())
    {
      var best := BestQueue();
      e := if best.Some? then Some(Contents().Of(best.value)[0]) else None;
    }

    method BestQueue() returns (best: Option<QueueClass>)
      ensures best == Selected(Contents())
    {
      best := None;
      var order := [Critical, Discrete, Aggregated, Continuous];
      ghost var b := Contents();
      for i := 0 to 4
        invariant best.Some? ==> b.Of(best.value) != []
        invariant best ==
          if i == 0 then None
          else if i == 1 then Better(b, None, Critical)
          else if i == 2 then Better(b, Better(b, None, Critical), Discrete)
          else if i == 3 then Better(b, Better(b, Better(b, None, Critical), Discrete), Aggregated)
          else Selected(b)
      {
        best := Better(Contents(), best, order[i]);
      }
    }

    method DequeueNext() returns (e: Option<Entry>)
      modifies this
      ensures e == Peeked(old(Contents()))
      ensures Contents() == Dequeued(old(Contents()))
    {
      var best := BestQueue();
      match best {
        case None => return None;
        case Some(Critical) => e, critical := Some(critical[0]), critical[1..];
        case Some(Discrete) => e, discrete := Some(discrete[0]), discrete[1..];
        case Some(Aggregated) => e, aggregated := Some(aggregated[0]), aggregated[1..];
        case Some(Continuous) => e, continuous := Some(continuous[0]), continuous[1..];
      }
    }

    method ApplyBackpressure()
      modifies this
      ensures Contents() == Backpressured(old(Contents()))
    {
      var dropped := continuous + aggregated;
      continuous, aggregated := [], [];
      FillAndSort(dropped);
    }

    method PurgeAggregated() returns (purged: nat)
      modifies this
      ensures Contents() == Purged(old(Contents()))
      ensures purged == |old(aggregated)|
    {
      var dropped := aggregated;
      aggregated := [];
      FillAndSort(dropped);
      purged := |dropped|;
    }

    // The stand-ins are appended here, never sorted in.
    method HandleNavigation()
      modifies this
      ensures Contents() == Navigated(old(Contents()))
    {
      var dropped := continuous + aggregated + Casualties(discrete);
      continuous, aggregated := [], [];
      discrete := Survivors(discrete);
      var _ := PushFillers(dropped);
    }

    method Clear()
      modifies this
      ensures Contents() == EMPTY
    {
      critical, discrete, aggregated, continuous := [], [], [], [];
    }
  }

  // A slave's entry in the state registry.
  class BrowserState {
    var currentGes: nat
    var consecutiveGaps: nat
    var hasPage: bool

    constructor (hasPage: bool)
      ensures currentGes == 0 && consecutiveGaps == 0 && this.hasPage == hasPage
    {
      currentGes, consecutiveGaps, this.hasPage := 0, 0, hasPage;
    }

    // Reports the slave broken on the eleventh gap in a row.
    method IncrementSlaveGes(isGapSkip: bool) returns (reportBroken: bool)
      modifies this`currentGes, this`consecutiveGaps
      ensures currentGes == old(currentGes) + 1
      ensures reportBroken <==> isGapSkip && old(consecutiveGaps) + 1 > MAX_GAPS
      ensures consecutiveGaps == if isGapSkip && !reportBroken then old(consecutiveGaps) + 1 else 0
    {
      currentGes := currentGes + 1;
      reportBroken := false;
      if isGapSkip {
        consecutiveGaps := consecutiveGaps + 1;
        if consecutiveGaps > MAX_GAPS {
          consecutiveGaps := 0;
          reportBroken := true;
        }
      } else if consecutiveGaps > 0 {
        consecutiveGaps := 0;
      }
    }

    method ResetConsecutiveGaps()
      modifies this`consecutiveGaps
      ensures consecutiveGaps == 0
    {
      if consecutiveGaps > 0 {
        consecutiveGaps := 0;
      }
    }
  }

  // What happens while one command is in flight, and how it ends.
  datatype Await = Await(meanwhile: seq<Event>, outcome: Outcome) {
    function Events(): seq<Event> { meanwhile + [Ended(outcome)] }
  }

  predicate IsOutside(ev: Event) { !ev.Turn? && !ev.Ended? }

  // A trace goes on with the first so many of these events.
  predicate Continues(longer: seq<Event>, trace: seq<Event>, evs: seq<Event>, n: nat) {
    n <= |evs| && longer == trace + evs[..n]
  }

  lemma ContinuesOneMore(longer: seq<Event>, before: seq<Event>, trace: seq<Event>, evs: seq<Event>, n: nat)
    requires n < |evs| && Continues(before, trace, evs, n) && Continues(longer, before, [evs[n]], 1)
    ensures Continues(longer, trace, evs, n + 1)
  {
  }

  lemma AwaitContinues(longer: seq<Event>, before: seq<Event>, trace: seq<Event>, a: Await)
    requires Continues(before, trace, a.meanwhile, |a.meanwhile|) && Continues(longer, before, [Ended(a.outcome)], 1)
    ensures Continues(longer, trace, a.Events(), |a.meanwhile| + 1)
  {
  }

  class SlaveScheduler {
    const queue: QueueManager
    const registry: BrowserState
    var broken: bool
    var inFlight: Option<Command>
    var drainLock: bool
    var globalBackpressure: bool
    var ownBackpressure: bool
    var watchdog: Option<int>

    function State(): Slave
      reads this, queue, registry
    {
      Slave(queue.Contents(), registry.currentGes, registry.consecutiveGaps, broken, inFlight, drainLock,
            globalBackpressure, ownBackpressure, registry.hasPage, watchdog)
    }

    constructor (hasPage: bool)
      ensures State() == Slave(EMPTY, 0, 0, false, None, false, false, false, hasPage, None)
      ensures fresh(queue) && fresh(registry)
    {
      queue := new QueueManager();
      registry := new BrowserState(hasPage);
      broken, inFlight, drainLock, globalBackpressure, ownBackpressure, watchdog :=
        false, None, false, false, false, None;
    }

    method ReportBroken()
      modifies this`broken, this`watchdog
      ensures broken && watchdog == None
    {
      broken, watchdog := true, None;
    }

    method CountOne(isGapSkip: bool)
      modifies this`broken, this`watchdog, registry
      ensures State() == Incremented(old(State()), isGapSkip)
    {
      var reportBroken := registry.IncrementSlaveGes(isGapSkip);
      if reportBroken {
        ReportBroken();
      }
    }

    method Increment(ges: Option<int>, isGapSkip: bool)
      modifies this`broken, this`watchdog, registry
      ensures State() == IncrementedFor(old(State()), ges, isGapSkip)
    {
      if ges.Some? {
        CountOne(isGapSkip);
      }
    }

    method Enqueue(c: Command)
      modifies this`broken, this`watchdog, this`drainLock, queue
      ensures State() == Enqueued(old(State()), c)
    {
      var cls := Classify(c);
      if (globalBackpressure || ownBackpressure) && (cls == Continuous || cls == Aggregated) {
        queue.discrete := queue.discrete + [Noop(c.ges)];
        queue.discrete := SortByGes(queue.discrete);
        return;
      }
      var ok := queue.Insert(cls, Entry(c, cls));
      if !ok {
        ReportBroken();
        return;
      }
      drainLock := true;
    }

    method SetGlobalBackpressure(active: bool)
      modifies this`globalBackpressure, queue
      ensures State() == WithGlobalBackpressure(old(State()), active)
    {
      globalBackpressure := active;
      if active {
        queue.ApplyBackpressure();
      }
    }

    method SetOwnBackpressure(active: bool)
      modifies this`ownBackpressure, queue
      ensures State() == WithOwnBackpressure(old(State()), active)
    {
      ownBackpressure := active;
      if active {
        queue.ApplyBackpressure();
      }
    }

    method PurgeAggregated() returns (purged: nat)
      modifies queue
      ensures State() == old(State()).(buckets := Purged(old(State()).buckets))
      ensures purged == |old(State()).buckets.aggregated|
    {
      purged := queue.PurgeAggregated();
    }

    method OnWatchdog()
      requires watchdog.Some?
      modifies this`broken, this`watchdog, this`drainLock, registry
      ensures State() == WatchdogFired(old(State()))
    {
      watchdog := None;
      CountOne(true);
      drainLock := true;
    }

    // One turn of the drain loop.
    method DrainTurn(expired: bool) returns (t: Taken)
      requires inFlight.None?
      modifies this, queue, registry
      ensures (State(), t) == Take(old(State()), expired)
    {
      var next := queue.PeekNext();
      if next == None {
        drainLock := false;
        return Idle;
      }
      var c := next.value.command;
      if (globalBackpressure || ownBackpressure) && IsDroppable(next.value.queueClass) {
        var _ := queue.DequeueNext();
        Increment(c.ges, false);
        return Dropped;
      }
      if expired {
        var _ := queue.DequeueNext();
        Increment(c.ges, true);
        return Evicted;
      }
      if !registry.hasPage {
        return Spins;
      }
      t := PassGate(c);
    }

    // The front command at the sequence gate.
    method PassGate(c: Command) returns (t: Taken)
      modifies this, queue, registry
      ensures (State(), t) == Gated(old(State()), c)
    {
      var ges := GateGes(c);
      if IsNavigation(c) {
        HandleNavigation(ges);
      }
      match Evaluate(registry.currentGes, ges) {
        case Stale =>
          var _ := queue.DequeueNext();
          return Rejected;
        case Waiting =>
          watchdog := ges;
          drainLock := false;
          return Blocked;
        case Aligned =>
          if ges.Some? {
            watchdog := None;
          }
      }
      var _ := queue.DequeueNext();
      if c.kind == "NOOP" {
        Increment(ges, false);
        return FastNoop;
      }
      inFlight := Some(c);
      t := Dispatched;
    }

    // A navigation ahead of its turn purges nothing.
    method HandleNavigation(ges: Option<int>)
      modifies queue
      ensures queue.Contents() ==
        if ges.Some? && ges.value > registry.currentGes + 1 then old(queue.Contents())
          else Navigated(old(queue.Contents()))
    {
      if ges.Some? && ges.value > registry.currentGes + 1 {
        return;
      }
      queue.HandleNavigation();
    }

    method Finish(outcome: Outcome)
      requires inFlight.Some?
      modifies this`inFlight, this`broken, this`watchdog, registry
      ensures State() == Finished(old(State()), outcome) && inFlight.None?
    {
      var c := inFlight.value;
      inFlight := None;
      match outcome {
        case BarrierFailed => Increment(GateGes(c), true);
        case ReturnedTrue => Increment(GateGes(c), false);
        case ReturnedFalse => Increment(GateGes(c), true);
        case ReturnedOther =>
        case Threw => Increment(c.ges, true);
      }
    }

    // An event from outside the drain loop.
    method Outside(ev: Event)
      requires IsOutside(ev)
      modifies this`broken, this`watchdog, this`drainLock, this`globalBackpressure, this`ownBackpressure, queue,
        registry
      ensures State() == Step(old(State()), ev)
      ensures old(drainLock) ==> drainLock
    {
      match ev {
        case Sent(c) => Enqueue(c);
        case GlobalPressure(active) => SetGlobalBackpressure(active);
        case OwnPressure(active) => SetOwnBackpressure(active);
        case ScrollPurge => var _ := PurgeAggregated();
        case WatchdogFires => if watchdog.Some? { OnWatchdog(); }
      }
    }

    method Meanwhile(evs: seq<Event>, ghost start: Slave, ghost trace: seq<Event>) returns (ghost longer: seq<Event>)
      requires forall i | 0 <= i < |evs| :: IsOutside(evs[i])
      requires State() == After(start, trace)
      modifies this`broken, this`watchdog, this`drainLock, this`globalBackpressure, this`ownBackpressure, queue,
        registry
      ensures Continues(longer, trace, evs, |evs|) && State() == After(start, longer)
      ensures registry.hasPage == old(registry.hasPage) && (old(drainLock) ==> drainLock)
    {
      longer := trace;
      for i := 0 to |evs|
        invariant Continues(longer, trace, evs, i) && State() == After(start, longer)
        invariant registry.hasPage == old(registry.hasPage) && (old(drainLock) ==> drainLock)
      {
        ghost var before := longer;
        longer := OutsideOnce(evs[i], start, before);
        ContinuesOneMore(longer, before, trace, evs, i);
      }
    }

    // One event from outside as a step of the run.
    method OutsideOnce(ev: Event, ghost start: Slave, ghost trace: seq<Event>) returns (ghost longer: seq<Event>)
      requires IsOutside(ev) && State() == After(start, trace)
      modifies this`broken, this`watchdog, this`drainLock, this`globalBackpressure, this`ownBackpressure, queue,
        registry
      ensures Continues(longer, trace, [ev], 1) && State() == After(start, longer)
      ensures registry.hasPage == old(registry.hasPage) && (old(drainLock) ==> drainLock)
    {
      StepKeepsPage(State(), ev);
      AfterOneMore(start, trace, ev);
      Outside(ev);
      longer := trace + [ev];
    }

    // A turn of the loop as a step of the run.
    method TurnOnce(
        expired: bool, ghost start: Slave, ghost trace: seq<Event>) returns (t: Taken, ghost longer: seq<Event>)
      requires drainLock && inFlight.None? && registry.hasPage && State() == After(start, trace)
      modifies this, queue, registry
      ensures Continues(longer, trace, [Turn(expired)], 1) && State() == After(start, longer) && registry.hasPage
      ensures t == Dispatched <==> inFlight.Some?
      ensures t == Idle ==> queue.Contents().Size() == 0 && !drainLock
      ensures t == Blocked ==> watchdog.Some?
      ensures t !in {Idle, Blocked} ==> queue.Contents().Size() < old(queue.Contents().Size()) && drainLock
    {
      TurnEffect(State(), expired);
      AfterOneMore(start, trace, Turn(expired));
      longer := trace + [Turn(expired)];
      t := DrainTurn(expired);
    }

    // One wait: events from outside, and then the end of the command in flight.
    method WaitOnce(a: Await, ghost start: Slave, ghost trace: seq<Event>) returns (ghost longer: seq<Event>)
      requires forall i | 0 <= i < |a.meanwhile| :: IsOutside(a.meanwhile[i])
      requires drainLock && inFlight.Some? && registry.hasPage && State() == After(start, trace)
      modifies this, queue, registry
      ensures Continues(longer, trace, a.Events(), |a.meanwhile| + 1) && State() == After(start, longer)
      ensures registry.hasPage && drainLock && inFlight.None?
    {
      ghost var before := Meanwhile(a.meanwhile, start, trace);
      longer := EndOnce(a.outcome, start, before);
      AwaitContinues(longer, before, trace, a);
    }

    method EndOnce(outcome: Outcome, ghost start: Slave, ghost trace: seq<Event>) returns (ghost longer: seq<Event>)
      requires inFlight.Some? && State() == After(start, trace)
      modifies this`inFlight, this`broken, this`watchdog, registry
      ensures Continues(longer, trace, [Ended(outcome)], 1) && State() == After(start, longer)
      ensures inFlight.None? && registry.hasPage == old(registry.hasPage)
    {
      AfterOneMore(start, trace, Ended(outcome));
      longer := trace + [Ended(outcome)];
      StepKeepsPage(State(), Ended(outcome));
      Finish(outcome);
    }

    // The drain loop, with what happens at each of its waits. It returns when
    // the queues are empty, when the front is blocked, or, with `done` false,
    // while it still waits for an answer. If everything outside respected the
    // protocol, it is in step, and done only when all that was sent is done.
    method Drain(awaits: seq<Await>, expired: nat -> bool, ghost n: nat)
      returns (done: bool, ghost trace: seq<Event>)
      requires drainLock && inFlight.None? && registry.hasPage
      requires forall k, i | 0 <= k < |awaits| && 0 <= i < |awaits[k].meanwhile| :: IsOutside(awaits[k].meanwhile[i])
      modifies this, queue, registry
      ensures State() == After(old(State()), trace)
      ensures done <==> inFlight.None?
      ensures InStep(old(State()), n) && AllRespect(old(State()), n, trace) ==>
        && InStep(State(), SentBy(n, trace))
        && (done ==> queue.Contents().Size() == 0 && registry.currentGes == SentBy(n, trace) && !drainLock)
    {
      ghost var start := State();
      trace := [];
      var turn, k := 0, 0;
      while true
        invariant drainLock && inFlight.None? && registry.hasPage
        invariant State() == After(start, trace)
        invariant 0 <= k <= |awaits|
        decreases |awaits| - k, queue.Contents().Size()
      {
        var t;
        t, trace := TurnOnce(expired(turn), start, trace);
        turn := turn + 1;
        if t == Idle || t == Blocked {
          done := true;
          break;
        }
        if t == Dispatched {
          if k == |awaits| {
            done := false;
            break;
          }
          trace := WaitOnce(awaits[k], start, trace);
          k := k + 1;
        }
      }
      DrainedInStep(start, n, trace);
    }
  }

  // A run that respected the protocol and stopped with nothing in flight and
  // either nothing queued or a watchdog set has in fact done everything sent.
  lemma {:induction false} DrainedInStep(start: Slave, n: nat, trace: seq<Event>)
    requires start.hasPage
    ensures var end := After(start, trace);
      InStep(start, n) && AllRespect(start, n, trace) ==>
      && InStep(end, SentBy(n, trace))
      && end.watchdog.None?
      && (end.inFlight.None? && end.buckets.Size() == 0 ==> end.currentGes == SentBy(n, trace))
  {
    var end := After(start, trace);
    if InStep(start, n) && AllRespect(start, n, trace) {
      EveryRunStaysInStep(start, n, trace);
      SelectedIsFirst(end.buckets, Critical);
      if end.inFlight.None? {
        FrontIsNext(end, SentBy(n, trace));
      }
    }
  }

  lemma {:induction false} AfterOneMore(s: Slave, evs: seq<Event>, ev: Event)
    ensures After(s, evs + [ev]) == Step(After(s, evs), ev)
  {
  }

  lemma {:induction false} GateEffect(s: Slave, c: Command)
    requires s.hasPage && s.inFlight.None? && Peeked(s.buckets).Some? && c == Peeked(s.buckets).value.command
    ensures var (s', t) := Gated(s, c);
      && s'.hasPage
      && t in {Rejected, Blocked, FastNoop, Dispatched}
      && (t == Dispatched <==> s'.inFlight.Some?)
      && (t == Blocked ==> s'.watchdog.Some?)
      && (t != Blocked ==> s'.buckets.Size() < s.buckets.Size() && s'.draining == s.draining)
  {
    RestIsSmaller(s);
  }

  lemma {:induction false} DropEffect(s: Slave, rest: Buckets, ges: Option<int>, isGapSkip: bool)
    requires s.hasPage && s.inFlight.None?
    ensures var s' := IncrementedFor(s.(buckets := rest), ges, isGapSkip);
      && s'.hasPage && s'.inFlight.None? && s'.draining == s.draining
      && s'.buckets == rest
  {
  }

  // A turn with a page in place either takes something out, finds nothing, or is blocked.
  lemma {:induction false} TurnEffect(s: Slave, expired: bool)
    requires s.hasPage && s.inFlight.None?
    ensures var (s', t) := Take(s, expired);
      && t != Spins && s'.hasPage
      && (t == Dispatched <==> s'.inFlight.Some?)
      && (t == Idle ==> s'.buckets.Size() == 0 && !s'.draining)
      && (t == Blocked ==> s'.watchdog.Some?)
      && (t !in {Idle, Blocked} ==> s'.buckets.Size() < s.buckets.Size() && s'.draining == s.draining)
  {
    SelectedIsFirst(s.buckets, Critical);
    if Peeked(s.buckets).Some? {
      var e := Peeked(s.buckets).value;
      DequeueTakesOne(s.buckets, 0);
      if IsPressed(s) && IsDroppable(e.queueClass) {
        DropEffect(s, Dequeued(s.buckets), e.command.ges, false);
      } else if expired {
        DropEffect(s, Dequeued(s.buckets), e.command.ges, true);
      } else {
        GateEffect(s, e.command);
      }
    }
  }
}
