// From capture to execution: what the sequencer emits is what a slave does, in
// the order it was captured.

module Pipeline {
  import opened Common
  import opened TemporalSequencing
  import opened ExecutionQueue
  import Protocol = Lockstep

  // The command the dispatcher builds from a sequenced event.
  function CommandOf(q: Sequenced, kind: string, payload: Payload): Command {
    Command("Execution", kind, Some(SequencedPriority(kind)), Some(q.ges), None, Some(payload))
  }

  // Hovers and scrolls go to the queues of their own, whatever case their type is
  // written in; everything else is discrete. Only a `navigate` is a navigation.
  lemma SequencedClassMeans(q: Sequenced, kind: string, payload: Payload)
    requires kind != ""
    ensures var cls := Classify(CommandOf(q, kind, payload));
      && (cls == Continuous <==> Lower(kind) in {"hover", "mousemove", "pointermove"})
      && (cls == Aggregated <==> Lower(kind) in {"scroll", "wheel"})
      && cls != Critical
      && (IsNavigation(CommandOf(q, kind, payload)) <==> kind == "navigate")
  {
  }

  // The commands a run of a slave was sent, oldest first.
  function SentCommands(evs: seq<Protocol.Event>): seq<Command> {
    if evs == [] then []
    else
      SentCommands(evs[..|evs| - 1]) +
      if evs[|evs| - 1].Sent? then [evs[|evs| - 1].command] else []
  }

  predicate IsCommandOf(c: Command, q: Sequenced) {
    c.payload.Some? && c == CommandOf(q, c.kind, c.payload.value)
  }

  // The slave was sent the front of the sequencer's output: event by event, nothing else.
  ghost predicate IsFrontOf(sent: seq<Command>, v: View) {
    && |sent| <= |v.emitted|
    && forall i | 0 <= i < |sent| :: IsCommandOf(sent[i], v.emitted[i])
  }

  // The i-th emitted event becomes the i-th command in order: the sequencer's
  // numbering is the one the slave's gate expects.
  lemma OutputIsInOrder(v: View, i: nat, kind: string, payload: Payload)
    requires Invariant(v) && i < |v.emitted|
    ensures Protocol.IsInOrder(CommandOf(v.emitted[i], kind, payload), i)
  {
  }

  // What is left to the slave's surroundings once the commands come from the
  // sequencer: the discrete queue has room, the simulator answers, and no purge
  // is unsafe.
  ghost predicate Serves(s: Protocol.Slave, ev: Protocol.Event) {
    match ev
    case Sent(c) => Overflows(s.buckets, Classify(c)) ==> Protocol.IsSilenced(s, c)
    case Turn(expired) =>
      s.draining && s.inFlight.None? && Protocol.TakesNavigation(s, expired) ==> Protocol.PurgeIsSafe(s.buckets)
    case Ended(outcome) => s.inFlight.Some? && outcome == Protocol.ReturnedOther ==> s.inFlight.value.ges.None?
    case _ => true
  }

  ghost predicate AllServe(s: Protocol.Slave, evs: seq<Protocol.Event>) {
    evs != [] ==>
      var earlier := evs[..|evs| - 1];
      AllServe(s, earlier) && Serves(Protocol.After(s, earlier), evs[|evs| - 1])
  }

  // A pending scroll always has a payload, when every command sent has.
  lemma {:induction false} StepKeepsPayload(s: Protocol.Slave, ev: Protocol.Event)
    requires ScrollHasPayload(s.buckets) && IsSlim(s.buckets)
    requires ev.Sent? ==> ev.command.payload.Some?
    ensures ScrollHasPayload(Protocol.Step(s, ev).buckets)
  {
    match ev {
      case Sent(c) => ArrivalKeepsPayload(s, c);
      case Turn(expired) => TurnKeepsPayload(s, expired);
      case Ended(outcome) => if s.inFlight.Some? { Protocol.EndKeepsBuckets(s, outcome); }
      case WatchdogFires =>
        if s.watchdog.Some? { Protocol.CountingKeepsBuckets(s.(watchdog := None), Some(0), true); }
      case _ =>
    }
  }

  lemma {:induction false} ArrivalKeepsPayload(s: Protocol.Slave, c: Command)
    requires ScrollHasPayload(s.buckets) && IsSlim(s.buckets) && c.payload.Some?
    ensures ScrollHasPayload(Protocol.Enqueued(s, c).buckets)
  {
    PayloadsConserve(s.buckets, Classify(c), Entry(c, Classify(c)), 0);
  }

  lemma DequeueKeepsPayload(b: Buckets)
    requires ScrollHasPayload(b) && IsSlim(b)
    ensures ScrollHasPayload(Dequeued(b))
  {
  }

  lemma {:induction false} TurnKeepsPayload(s: Protocol.Slave, expired: bool)
    requires ScrollHasPayload(s.buckets) && IsSlim(s.buckets)
    ensures ScrollHasPayload(Protocol.Take(s, expired).0.buckets)
  {
    if Peeked(s.buckets).Some? {
      var c := Peeked(s.buckets).value.command;
      DequeueKeepsPayload(s.buckets);
      GateKeepsPayload(s, c);
      Protocol.CountingKeepsBuckets(s.(buckets := Dequeued(s.buckets)), c.ges, false);
      Protocol.CountingKeepsBuckets(s.(buckets := Dequeued(s.buckets)), c.ges, true);
    }
  }

  lemma {:induction false} GateKeepsPayload(s: Protocol.Slave, c: Command)
    requires ScrollHasPayload(s.buckets) && IsSlim(s.buckets)
    ensures ScrollHasPayload(Protocol.Gated(s, c).0.buckets)
  {
    Protocol.GateLeaves(s, c);
    var purged := Protocol.AfterPurge(s, c);
    assert purged == s.buckets || purged.aggregated == [];
    DequeueKeepsPayload(s.buckets);
    DequeueKeepsPayload(Navigated(s.buckets));
  }

  // A command of the sequencer arrives in order, and no such scroll vanishes.
  lemma {:induction false} OutputIsRespected(s: Protocol.Slave, v: View, c: Command, n: nat)
    requires Invariant(v) && n < |v.emitted| && IsCommandOf(c, v.emitted[n])
    requires ScrollHasPayload(s.buckets)
    ensures Protocol.IsInOrder(c, n)
    ensures Protocol.Respects(s, n, Protocol.Sent(c)) <==> Serves(s, Protocol.Sent(c))
  {
    OutputIsInOrder(v, n, c.kind, c.payload.value);
  }

  // Fed by the sequencer, a slave respects the protocol exactly as far as its
  // surroundings serve it.
  lemma {:induction false} FedSlaveRespectsIff(v: View, s: Protocol.Slave, evs: seq<Protocol.Event>)
    requires Invariant(v) && IsFrontOf(SentCommands(evs), v) && s == Protocol.JUST_STARTED
    ensures Protocol.AllRespect(s, 0, evs) <==> AllServe(s, evs)
    ensures Protocol.SentInOrder(0, evs) && Protocol.SentBy(0, evs) == |SentCommands(evs)|
    ensures WithinCapacity(Protocol.After(s, evs).buckets) && ScrollHasPayload(Protocol.After(s, evs).buckets)
    decreases |evs|
  {
    if evs != [] {
      var earlier, last := evs[..|evs| - 1], evs[|evs| - 1];
      var n := |SentCommands(earlier)|;
      assert SentCommands(evs)[..n] == SentCommands(earlier);
      forall i | 0 <= i < n ensures IsCommandOf(SentCommands(earlier)[i], v.emitted[i]) {
        assert SentCommands(earlier)[i] == SentCommands(evs)[i];
      }
      FedSlaveRespectsIff(v, s, earlier);
      var before := Protocol.After(s, earlier);
      if last.Sent? {
        assert SentCommands(evs)[n] == last.command;
        OutputIsRespected(before, v, last.command, n);
      }
      Protocol.EveryRunKeepsCapacity(s, evs);
      StepKeepsPayload(before, last);
    }
  }

  lemma JustStartedIsInStep(s: Protocol.Slave)
    requires s == Protocol.JUST_STARTED
    ensures Protocol.InStep(s, 0) && s.hasPage
  {
    forall g ensures s.buckets.Holds(g) == 0 {}
  }

  // End to end: a fresh slave fed by the sequencer is in step with it throughout,
  // exactly as far as its surroundings serve it.
  lemma {:induction false} FedSlaveStaysInStepIff(v: View, s: Protocol.Slave, evs: seq<Protocol.Event>)
    requires Invariant(v) && IsFrontOf(SentCommands(evs), v) && s == Protocol.JUST_STARTED
    ensures Protocol.AlwaysInStep(s, 0, evs) <==> AllServe(s, evs)
  {
    JustStartedIsInStep(s);
    FedSlaveRespectsIff(v, s, evs);
    Protocol.EveryRunStaysInStepIff(s, 0, evs);
  }

  // ... and once it has been sent everything and finds nothing more to do, it
  // has done every event emitted.
  lemma {:induction false} IdleSlaveHasDoneEverything(v: View, s: Protocol.Slave, evs: seq<Protocol.Event>)
    requires Invariant(v) && IsFrontOf(SentCommands(evs), v) && |SentCommands(evs)| == |v.emitted|
    requires s == Protocol.JUST_STARTED && AllServe(s, evs)
    ensures var end := Protocol.After(s, evs);
      && Protocol.InStep(end, v.ges)
      && (end.inFlight.None? && end.buckets.Size() == 0 ==> end.currentGes == v.ges)
  {
    JustStartedIsInStep(s);
    FedSlaveRespectsIff(v, s, evs);
    Protocol.EveryRunStaysInStep(s, 0, evs);
    var end := Protocol.After(s, evs);
    if end.inFlight.None? && end.buckets.Size() == 0 {
      SelectedIsFirst(end.buckets, Critical);
      Protocol.FrontIsNext(end, v.ges);
    }
  }
}
