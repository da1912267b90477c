// One slave's execution protocol: commands arrive, queues are purged, and a
// single drain loop lets exactly the next sequence number through.

module Lockstep {
  import opened Common
  import opened ExecutionQueue

  const MAX_GAPS := 10

  // `watchdog` is the number a blocked command waits for; `broken` says that
  // the slave has been reported broken.
  datatype Slave = Slave(
    buckets: Buckets,
    currentGes: nat,
    consecutiveGaps: nat,
    broken: bool,
    inFlight: Option<Command>,
    draining: bool,
    globalBackpressure: bool,
    ownBackpressure: bool,
    hasPage: bool,
    watchdog: Option<int>)

  datatype Verdict = Aligned | Waiting | Stale

  // The sequence gate: only the number after the slave's own may pass.
  function Evaluate(currentGes: nat, ges: Option<int>): Verdict {
    if ges.None? || ges.value == currentGes + 1 then Aligned
    else if ges.value > currentGes + 1 then Waiting
    else Stale
  }

  // The number the gate looks at.
  function GateGes(c: Command): Option<int> { if c.ges.Some? then c.ges else c.altGes }

  // Counting one number as done. The eleventh gap in a row reports the slave
  // broken, which also cancels its watchdog.
  function Incremented(s: Slave, isGapSkip: bool): Slave {
    var s := s.(currentGes := s.currentGes + 1);
    if !isGapSkip then s.(consecutiveGaps := 0)
    else if s.consecutiveGaps + 1 > MAX_GAPS then s.(consecutiveGaps := 0, broken := true, watchdog := None)
    else s.(consecutiveGaps := s.consecutiveGaps + 1)
  }

  function IncrementedFor(s: Slave, ges: Option<int>, isGapSkip: bool): Slave {
    if ges.Some? then Incremented(s, isGapSkip) else s
  }

  // A series of counts, and how many gap skips end it.
  function IncrementedBy(s: Slave, skips: seq<bool>): Slave {
    if skips == [] then s else Incremented(IncrementedBy(s, skips[..|skips| - 1]), skips[|skips| - 1])
  }

  function TrailingSkips(skips: seq<bool>): nat {
    if skips == [] || !skips[|skips| - 1] then 0 else 1 + TrailingSkips(skips[..|skips| - 1])
  }

  // Some run of skips was longer than the allowed gaps.
  predicate HadLongRun(skips: seq<bool>) {
    skips != [] && (TrailingSkips(skips) > MAX_GAPS || HadLongRun(skips[..|skips| - 1]))
  }

  lemma {:induction false} CounterIsTrailing(s: Slave, skips: seq<bool>)
    requires s.consecutiveGaps == 0
    ensures IncrementedBy(s, skips).consecutiveGaps == TrailingSkips(skips) % (MAX_GAPS + 1)
    ensures IncrementedBy(s, skips).currentGes == s.currentGes + |skips|
  {
    if skips != [] {
      CounterIsTrailing(s, skips[..|skips| - 1]);
    }
  }

  // The slave is reported broken exactly when eleven skips came in a row, and
  // the counter then starts over.
  lemma {:induction false} BrokenAtElevenInARow(s: Slave, skips: seq<bool>)
    requires s.consecutiveGaps == 0 && !s.broken
    ensures IncrementedBy(s, skips).broken <==> HadLongRun(skips)
  {
    if skips != [] {
      var earlier := skips[..|skips| - 1];
      BrokenAtElevenInARow(s, earlier);
      CounterIsTrailing(s, earlier);
      LongTrailIsLongRun(earlier);
    }
  }

  lemma {:induction false} LongTrailIsLongRun(skips: seq<bool>)
    ensures TrailingSkips(skips) > MAX_GAPS ==> HadLongRun(skips)
  {
  }

  predicate IsPressed(s: Slave) { s.globalBackpressure || s.ownBackpressure }

  predicate IsDroppable(cls: QueueClass) { cls == Continuous || cls == Aggregated }

  // ---------- Steps ----------

  // A command arrives. Under backpressure a hover or scroll becomes a stand-in
  // and does not wake the drain loop; an overflow only reports the slave broken.
  function Enqueued(s: Slave, c: Command): Slave {
    var cls := Classify(c);
    if IsPressed(s) && IsDroppable(cls) then
      s.(buckets := s.buckets.(discrete := SortByGes(s.buckets.discrete + [Noop(c.ges)])))
    else if Overflows(s.buckets, cls) then s.(broken := true, watchdog := None)
    else s.(buckets := Inserted(s.buckets, cls, Entry(c, cls)), draining := true)
  }

  function WithGlobalBackpressure(s: Slave, active: bool): Slave {
    s.(globalBackpressure := active, buckets := if active then Backpressured(s.buckets) else s.buckets)
  }

  function WithOwnBackpressure(s: Slave, active: bool): Slave {
    s.(ownBackpressure := active, buckets := if active then Backpressured(s.buckets) else s.buckets)
  }

  datatype Taken = Idle | Dropped | Evicted | Spins | Rejected | Blocked | FastNoop | Dispatched

  // The queue as the gate sees it: a navigation that is not ahead of its turn purges first.
  function AfterPurge(s: Slave, c: Command): Buckets {
    if IsNavigation(c) && !(GateGes(c).Some? && GateGes(c).value > s.currentGes + 1)
    then Navigated(s.buckets) else s.buckets
  }

  // The front command at the sequence gate.
  function Gated(s: Slave, c: Command): (Slave, Taken) {
    var purged := AfterPurge(s, c);
    var ges := GateGes(c);
    match Evaluate(s.currentGes, ges)
    case Stale => (s.(buckets := Dequeued(purged)), Rejected)
    case Waiting => (s.(buckets := purged, draining := false, watchdog := ges), Blocked)
    case Aligned =>
      var s' := s.(buckets := Dequeued(purged), watchdog := if ges.Some? then None else s.watchdog);
      if c.kind == "NOOP" then (IncrementedFor(s', ges, false), FastNoop)
      else (s'.(inFlight := Some(c)), Dispatched)
  }

  // One turn of the drain loop, up to its first wait.
  function Take(s: Slave, expired: bool): (Slave, Taken) {
    match Peeked(s.buckets)
    case None => (s.(draining := false), Idle)
    case Some(e) =>
      if IsPressed(s) && IsDroppable(e.queueClass) then
        (IncrementedFor(s.(buckets := Dequeued(s.buckets)), e.command.ges, false), Dropped)
      else if expired then
        (IncrementedFor(s.(buckets := Dequeued(s.buckets)), e.command.ges, true), Evicted)
      else if !s.hasPage then (s, Spins)
      else Gated(s, e.command)
  }

  datatype Outcome = BarrierFailed | ReturnedTrue | ReturnedFalse | ReturnedOther | Threw

  // The command in flight is over.
  function Finished(s: Slave, outcome: Outcome): Slave
    requires s.inFlight.Some?
  {
    var c := s.inFlight.value;
    var s := s.(inFlight := None);
    match outcome
    case BarrierFailed => IncrementedFor(s, GateGes(c), true)
    case ReturnedTrue => IncrementedFor(s, GateGes(c), false)
    case ReturnedFalse => IncrementedFor(s, GateGes(c), true)
    case ReturnedOther => s
    case Threw => IncrementedFor(s, c.ges, true)
  }

  // The watchdog of a blocked command fires: its turn is skipped to and draining resumes.
  function WatchdogFired(s: Slave): Slave
    requires s.watchdog.Some?
  {
    Incremented(s.(watchdog := None), true).(draining := true)
  }

  // ---------- The invariant ----------

  // Numbers ascend along a queue.
  ghost predicate Ordered(s: seq<Entry>) {
    forall i, j | 0 <= i < j < |s| && s[i].command.ges.Some? && s[j].command.ges.Some? ::
      s[i].command.ges.value < s[j].command.ges.value
  }

  // No command hides a second number in its metadata or payload.
  ghost predicate Plain(s: seq<Entry>) { forall i | 0 <= i < |s| :: s[i].command.altGes.None? }

  ghost predicate Tidy(b: Buckets) {
    && IsSlim(b)
    && Ordered(b.critical) && Ordered(b.discrete)
    && Plain(b.critical) && Plain(b.discrete) && Plain(b.aggregated) && Plain(b.continuous)
  }

  function InFlightGes(s: Slave): Option<int> {
    if s.inFlight.Some? then s.inFlight.value.ges else None
  }

  // Each number after the slave's own, up to the last one sent, waits or is in
  // flight exactly once, and no other number does.
  ghost predicate Covers(s: Slave, n: nat) {
    && s.currentGes <= n
    && forall g :: s.buckets.Holds(g) + One(InFlightGes(s), g) == if s.currentGes < g <= n then 1 else 0
  }

  ghost predicate InStep(s: Slave, n: nat) {
    && Tidy(s.buckets)
    && Covers(s, n)
    && s.watchdog.None?
    && (s.inFlight.Some? ==>
          && s.draining
          && s.inFlight.value.altGes.None?
          && (s.inFlight.value.ges.Some? ==> s.inFlight.value.ges.value == s.currentGes + 1))
  }

  // ---------- Order of queues ----------

  lemma {:induction false} SortedDistinctIsOrdered(s: seq<Entry>)
    requires Sorted(s) && forall g :: Count(s, g) <= 1
    ensures Ordered(s)
  {
    forall i, j | 0 <= i < j < |s| && s[i].command.ges.Some? && s[j].command.ges.Some?
      ensures s[i].command.ges.value < s[j].command.ges.value
    {
      assert Key(s[i]) <= Key(s[j]);
      if s[i].command.ges == s[j].command.ges {
        CountTwice(s, i, j);
      }
    }
  }

  lemma {:induction false} PlainFillers(dropped: seq<Entry>)
    ensures Plain(Fillers(dropped))
  {
    if dropped != [] {
      PlainFillers(dropped[1..]);
    }
  }

  lemma {:induction false} PlainSort(s: seq<Entry>)
    requires Plain(s)
    ensures Plain(SortByGes(s))
  {
    var r := SortByGes(s);
    forall i | 0 <= i < |r| ensures r[i].command.altGes.None? {
      assert r[i] in multiset(r);
      assert r[i] in multiset(s);
      assert r[i] in s;
    }
  }

  lemma {:induction false} FilledStaysTidy(discrete: seq<Entry>, dropped: seq<Entry>)
    requires Ordered(discrete) && Plain(discrete)
    requires forall g :: Count(Filled(discrete, dropped), g) <= 1
    ensures Ordered(Filled(discrete, dropped)) && Plain(Filled(discrete, dropped))
  {
    var fillers := Fillers(dropped);
    if fillers != [] {
      SortSorts(discrete + fillers);
      SortedDistinctIsOrdered(Filled(discrete, dropped));
      PlainFillers(dropped);
      PlainSort(discrete + fillers);
    }
  }

  lemma {:induction false} AppendStaysTidy(s: seq<Entry>, e: Entry, n: nat)
    requires Ordered(s) && Plain(s) && e.command.altGes.None?
    requires forall g :: Count(s, g) >= 1 ==> g <= n
    requires e.command.ges.Some? ==> e.command.ges.value == n + 1
    ensures Ordered(s + [e]) && Plain(s + [e])
  {
    forall i | 0 <= i < |s| && s[i].command.ges.Some? ensures s[i].command.ges.value <= n {
      CountHas(s, i);
    }
  }

  // ---------- Operations that only rearrange ----------

  lemma {:induction false} CountWithin(b: Buckets, cls: QueueClass, g: int)
    ensures Count(b.Of(cls), g) <= b.Holds(g)
  {
  }

  lemma {:induction false} BackpressureStaysInStep(s: Slave, n: nat, active: bool)
    requires InStep(s, n)
    ensures InStep(WithGlobalBackpressure(s, active), n) && InStep(WithOwnBackpressure(s, active), n)
  {
    if active {
      var b := Backpressured(s.buckets);
      forall g ensures b.Holds(g) == s.buckets.Holds(g) {
        PurgesConserve(s.buckets, g);
      }
      SameHoldsSameCover(s, b, n);
      ConcatIsPlain(s.buckets.continuous, s.buckets.aggregated);
      FilledStaysTidy(s.buckets.discrete, s.buckets.continuous + s.buckets.aggregated);
    }
  }

  // A new set of buckets holding the same numbers keeps the cover, and holds no number twice.
  lemma {:induction false} SameHoldsSameCover(s: Slave, b: Buckets, n: nat)
    requires Covers(s, n) && forall g :: b.Holds(g) == s.buckets.Holds(g)
    ensures Covers(s.(buckets := b), n)
    ensures forall g :: Count(b.discrete, g) <= 1
  {
    forall g ensures b.Holds(g) + One(InFlightGes(s), g) == if s.currentGes < g <= n then 1 else 0 {
      assert b.Holds(g) == s.buckets.Holds(g);
    }
    forall g ensures Count(b.discrete, g) <= 1 {
      CountWithin(b, Discrete, g);
      assert b.Holds(g) == s.buckets.Holds(g);
    }
  }

  lemma {:induction false} ConcatIsPlain(a: seq<Entry>, b: seq<Entry>)
    requires Plain(a) && Plain(b)
    ensures Plain(a + b)
  {
  }

  lemma {:induction false} PurgeStaysInStep(s: Slave, n: nat)
    requires InStep(s, n)
    ensures InStep(s.(buckets := Purged(s.buckets)), n)
  {
    var b := Purged(s.buckets);
    forall g ensures b.Holds(g) == s.buckets.Holds(g) {
      PurgesConserve(s.buckets, g);
    }
    SameHoldsSameCover(s, b, n);
    FilledStaysTidy(s.buckets.discrete, s.buckets.aggregated);
  }

  // ---------- Navigation purges ----------

  // Every number in `a` is below every number in `b`.
  ghost predicate AllBelow(a: seq<Entry>, b: seq<Entry>) {
    forall g, h | Count(a, g) >= 1 && Count(b, h) >= 1 :: g < h
  }

  lemma {:induction false} OrderedConcat(a: seq<Entry>, b: seq<Entry>)
    ensures Ordered(a + b) <==> Ordered(a) && Ordered(b) && AllBelow(a, b)
  {
    var c := a + b;
    assert forall i | 0 <= i < |a| :: c[i] == a[i];
    assert forall i | 0 <= i < |b| :: c[|a| + i] == b[i];
    if Ordered(c) {
      forall g, h | Count(a, g) >= 1 && Count(b, h) >= 1 ensures g < h {
        var i := CountIsHeld(a, g);
        var j := CountIsHeld(b, h);
        assert c[i].command.ges == Some(g) && c[|a| + j].command.ges == Some(h);
      }
    }
    if Ordered(a) && Ordered(b) && AllBelow(a, b) {
      forall i, j | 0 <= i < j < |c| && c[i].command.ges.Some? && c[j].command.ges.Some?
        ensures c[i].command.ges.value < c[j].command.ges.value
      {
        if i < |a| <= j {
          CountHas(a, i);
          CountHas(b, j - |a|);
          assert c[j] == b[j - |a|];
        } else if |a| <= i {
          assert c[i] == b[i - |a|] && c[j] == b[j - |a|];
        }
      }
    }
  }

  lemma {:induction false} OrderedFillers(dropped: seq<Entry>)
    ensures Ordered(Fillers(dropped)) <==> Ordered(dropped)
  {
    if dropped != [] {
      var rest := dropped[1..];
      OrderedFillers(rest);
      OrderedConcat([dropped[0]], rest);
      assert dropped == [dropped[0]] + rest;
      var filler := Noop(dropped[0].command.ges);
      OrderedConcat([filler], Fillers(rest));
      SameBelow([filler], [dropped[0]], Fillers(rest), rest);
    }
  }

  // Whether all are below depends only on the numbers held.
  lemma {:induction false} SameBelow(a: seq<Entry>, a': seq<Entry>, fillers: seq<Entry>, dropped: seq<Entry>)
    requires fillers == Fillers(dropped)
    requires |a| == |a'| == 1 && a[0].command.ges == a'[0].command.ges
    ensures AllBelow(a, fillers) <==> AllBelow(a', dropped)
    ensures a'[0].command.ges.None? ==> AllBelow(a', dropped)
  {
    forall g ensures Count(a, g) == Count(a', g) {
      assert a == [a[0]] && a' == [a'[0]];
      CountOfOne(a[0], g);
      CountOfOne(a'[0], g);
    }
    forall g ensures Count(fillers, g) == Count(dropped, g) {
      FillersKeepCount(dropped, g);
    }
    forall g ensures Count(a', g) == One(a'[0].command.ges, g) {
      assert a' == [a'[0]];
      CountOfOne(a'[0], g);
    }
  }

  lemma {:induction false} SubqueuesAreOrdered(s: seq<Entry>)
    requires Ordered(s)
    ensures Ordered(Survivors(s)) && Ordered(Casualties(s))
  {
    if s != [] {
      var rest := s[1..];
      assert s == [s[0]] + rest;
      OrderedConcat([s[0]], rest);
      SubqueuesAreOrdered(rest);
      OrderedConcat([s[0]], Survivors(rest));
      OrderedConcat([s[0]], Casualties(rest));
      forall g ensures Count(Survivors(rest), g) <= Count(rest, g) && Count(Casualties(rest), g) <= Count(rest, g) {
        SplitKeepsCount(rest, g);
      }
    }
  }

  lemma {:induction false} SubqueuesArePlain(s: seq<Entry>)
    requires Plain(s)
    ensures Plain(Survivors(s)) && Plain(Casualties(s))
  {
    if s != [] {
      SubqueuesArePlain(s[1..]);
    }
  }

  // The purge keeps the order: the hover is older than the scroll, both are
  // older than every purged discrete command, and every survivor is older than all of them.
  ghost predicate PurgeIsOrderly(b: Buckets) {
    var kept, lost := Survivors(b.discrete), Casualties(b.discrete);
    && AllBelow(b.continuous, b.aggregated)
    && AllBelow(b.continuous, lost) && AllBelow(b.aggregated, lost)
    && AllBelow(kept, b.continuous) && AllBelow(kept, b.aggregated) && AllBelow(kept, lost)
  }

  lemma {:induction false} BelowConcat(a: seq<Entry>, b: seq<Entry>, c: seq<Entry>)
    ensures AllBelow(a, b + c) <==> AllBelow(a, b) && AllBelow(a, c)
    ensures AllBelow(a + b, c) <==> AllBelow(a, c) && AllBelow(b, c)
  {
    forall g ensures Count(b + c, g) == Count(b, g) + Count(c, g) && Count(a + b, g) == Count(a, g) + Count(b, g) {
      CountOfConcat(b, c, g);
      CountOfConcat(a, b, g);
    }
  }

  lemma {:induction false} SlimIsOrdered(s: seq<Entry>)
    requires |s| <= 1
    ensures Ordered(s)
  {
  }

  // A navigation purge leaves the discrete queue in order exactly when the
  // purge is orderly: the code appends the stand-ins without sorting.
  lemma {:induction false} NavigationOrderIsExact(b: Buckets)
    requires IsSlim(b) && Ordered(b.discrete)
    ensures Ordered(Navigated(b).discrete) <==> PurgeIsOrderly(b)
  {
    var kept, lost := Survivors(b.discrete), Casualties(b.discrete);
    var pair := b.continuous + b.aggregated;
    var dropped := pair + lost;
    SubqueuesAreOrdered(b.discrete);
    SlimIsOrdered(b.continuous);
    SlimIsOrdered(b.aggregated);
    OrderedConcat(b.continuous, b.aggregated);
    OrderedConcat(pair, lost);
    OrderedFillers(dropped);
    OrderedConcat(kept, Fillers(dropped));
    forall g ensures Count(Fillers(dropped), g) == Count(dropped, g) {
      FillersKeepCount(dropped, g);
    }
    assert AllBelow(kept, Fillers(dropped)) <==> AllBelow(kept, dropped);
    BelowConcat(kept, pair, lost);
    BelowConcat(kept, b.continuous, b.aggregated);
    BelowConcat(b.continuous, b.aggregated, lost);
  }

  lemma {:induction false} FirstSurvivor(s: seq<Entry>)
    requires s != [] && SurvivesNavigation(s[0])
    ensures Survivors(s) != [] && Survivors(s)[0] == s[0]
  {
  }

  ghost predicate Unnumbered(s: seq<Entry>) { forall i | 0 <= i < |s| :: s[i].command.ges.None? }

  // What is taken in place of a navigation that the purge swept away carries no
  // number: nothing is left at all, or a survivor without a number leads.
  ghost predicate LeavesUnnumbered(b: Buckets) {
    var kept := Survivors(b.discrete);
    if kept == [] then b.critical == [] && Unnumbered(b.continuous + b.aggregated + Casualties(b.discrete))
    else kept[0].command.ges.None? && PurgeIsOrderly(b)
  }

  // The purge before a navigation is taken does no harm, by the queue the
  // navigation waits in and whether it carries a number. A critical or discrete
  // one survives the purge; a scroll or hover is swept away by its own purge and
  // leaves a stand-in, which must then come first.
  ghost predicate PurgeIsSafe(b: Buckets)
    requires Peeked(b).Some?
  {
    var kept := Survivors(b.discrete);
    var numbered := Peeked(b).value.command.ges.Some?;
    match Selected(b).value
    case Discrete => PurgeIsOrderly(b)
    case Critical => PurgeIsOrderly(b) && (numbered && kept != [] ==> kept[0].command.ges.Some?)
    case Aggregated => if numbered then kept == [] && Unnumbered(b.continuous) else LeavesUnnumbered(b)
    case Continuous =>
      if numbered then kept == [] && AllBelow(b.aggregated, Casualties(b.discrete)) else LeavesUnnumbered(b)
  }

  // The number that leaves the queues, if any does.
  function TakenGes(b: Buckets): Option<int> { if Peeked(b).Some? then Peeked(b).value.command.ges else None }

  // The front is a navigation, and no number waiting is below its own.
  ghost predicate LeadsWithNavigation(b: Buckets) {
    && Peeked(b).Some? && IsNavigation(Peeked(b).value.command)
    && IsSlim(b) && Ordered(b.discrete)
    && (forall cls, g :: Count(b.Of(cls), g) <= b.Holds(g) <= 1)
    && (TakenGes(b).Some? ==> forall g | b.Holds(g) >= 1 :: TakenGes(b).value <= g)
  }

  lemma {:induction false} UnnumberedFillers(a: seq<Entry>, b: seq<Entry>)
    requires Unnumbered(a)
    ensures Fillers(a + b) == Fillers(b)
    decreases |a|
  {
    if a == [] {
      assert a + b == b;
    } else {
      assert (a + b)[1..] == a[1..] + b;
      UnnumberedFillers(a[1..], b);
    }
  }

  lemma {:induction false} FillersAreNumbered(s: seq<Entry>)
    ensures forall i | 0 <= i < |Fillers(s)| :: Fillers(s)[i].command.ges.Some?
    ensures Fillers(s) == [] <==> Unnumbered(s)
  {
    if s != [] { FillersAreNumbered(s[1..]); }
  }

  // The tail of an ordered queue is ordered, and so is the whole if its head is least.
  lemma {:induction false} TailIsOrderedIff(s: seq<Entry>)
    requires s != [] && (s[0].command.ges.Some? ==> forall g | Count(s[1..], g) >= 1 :: s[0].command.ges.value < g)
    ensures Ordered(s[1..]) <==> Ordered(s)
  {
    assert s == [s[0]] + s[1..];
    OrderedConcat([s[0]], s[1..]);
    forall g ensures Count([s[0]], g) == One(s[0].command.ges, g) { CountOfOne(s[0], g); }
  }

  // What remains is tidy, and what left carries the navigation's number.
  ghost predicate PurgeWorks(b: Buckets) {
    TakenGes(Navigated(b)) == TakenGes(b) && Ordered(Dequeued(Navigated(b)).discrete)
  }

  lemma {:induction false} DiscretePurgeIff(b: Buckets)
    requires LeadsWithNavigation(b) && Selected(b) == Some(Discrete)
    ensures PurgeWorks(b) <==> PurgeIsSafe(b)
  {
    var after := Navigated(b);
    FirstSurvivor(b.discrete);
    SelectedIsFirst(b, Critical);
    SelectedIsFirst(after, Critical);
    SelectedIsFirst(after, Discrete);
    assert after.discrete[0] == b.discrete[0];
    assert Selected(after) == Some(Discrete);
    HeadIsLeastOfRest(b, after);
    TailIsOrderedIff(after.discrete);
    NavigationOrderIsExact(b);
  }

  // With the same numbers held, the leading number is below all others of its queue.
  lemma {:induction false} HeadIsLeastOfRest(b: Buckets, after: Buckets)
    requires LeadsWithNavigation(b) && after == Navigated(b) && after.discrete != []
    requires after.discrete[0].command.ges == TakenGes(b)
    ensures TakenGes(b).Some? ==> forall g | Count(after.discrete[1..], g) >= 1 :: TakenGes(b).value < g
  {
    if TakenGes(b).Some? {
      forall g | Count(after.discrete[1..], g) >= 1 ensures TakenGes(b).value < g {
        assert Count(after.discrete, g) == One(after.discrete[0].command.ges, g) + Count(after.discrete[1..], g);
        CountWithin(after, Discrete, g);
        PurgesConserve(b, g);
      }
    }
  }

  lemma {:induction false} CriticalPurgeIff(b: Buckets)
    requires LeadsWithNavigation(b) && Selected(b) == Some(Critical)
    ensures PurgeWorks(b) <==> PurgeIsSafe(b)
  {
    var after := Navigated(b);
    SelectedIsFirst(b, Critical);
    SelectedIsFirst(after, Critical);
    SelectedIsFirst(after, Discrete);
    NavigationOrderIsExact(b);
    FillersAreNumbered(b.continuous + b.aggregated + Casualties(b.discrete));
    if after.discrete != [] && after.discrete[0].command.ges.Some? {
      HeadIsHeld(b, after);
    }
    assert Selected(after) == Some(Critical) <==>
      TakenGes(b).None? || after.discrete == [] || after.discrete[0].command.ges.Some?;
  }

  lemma {:induction false} HeadIsHeld(b: Buckets, after: Buckets)
    requires LeadsWithNavigation(b) && after == Navigated(b)
    requires after.discrete != [] && after.discrete[0].command.ges.Some?
    ensures b.Holds(after.discrete[0].command.ges.value) >= 1
    ensures TakenGes(b).Some? ==> TakenGes(b).value <= after.discrete[0].command.ges.value
  {
    var h := after.discrete[0].command.ges.value;
    CountHas(after.discrete, 0);
    CountWithin(after, Discrete, h);
    PurgesConserve(b, h);
  }

  // A number held in one queue is held in no other.
  lemma {:induction false} HeldOnce(b: Buckets, cls: QueueClass, other: QueueClass, g: int)
    requires Count(b.Of(cls), g) >= 1 && b.Holds(g) <= 1 && cls != other
    ensures Count(b.Of(other), g) == 0
  {
  }

  lemma {:induction false} KeptIsFromDiscrete(b: Buckets, g: int)
    requires Count(b.discrete, g) == 0
    ensures Count(Survivors(b.discrete), g) == 0
  {
    SplitKeepsCount(b.discrete, g);
  }

  // The front is a numbered navigation that its own purge sweeps away.
  ghost predicate SweepsItself(b: Buckets, cls: QueueClass, sooner: seq<Entry>, later: seq<Entry>) {
    && LeadsWithNavigation(b) && Selected(b) == Some(cls) && cls in {Aggregated, Continuous} && TakenGes(b).Some?
    && b.continuous + b.aggregated + Casualties(b.discrete) == sooner + b.Of(cls) + later
    && (sooner == [] || (sooner == b.continuous && cls == Aggregated))
  }

  // Its number heads no queue that the purge leaves alone.
  lemma {:induction false} SweptNumberIsElsewhere(b: Buckets, cls: QueueClass, sooner: seq<Entry>, later: seq<Entry>)
    requires SweepsItself(b, cls, sooner, later)
    ensures b.critical != [] ==> b.critical[0].command.ges.Some? && b.critical[0].command.ges.value > TakenGes(b).value
    ensures Count(Survivors(b.discrete), TakenGes(b).value) == 0
    ensures Count(sooner, TakenGes(b).value) == 0
  {
    var v := TakenGes(b).value;
    CountHas(b.Of(cls), 0);
    assert b.Holds(v) <= 1;
    SelectedIsFirst(b, Critical);
    HeldOnce(b, cls, Discrete, v);
    KeptIsFromDiscrete(b, v);
    if cls == Aggregated {
      HeldOnce(b, cls, Continuous, v);
    }
  }

  lemma {:induction false} KeptComesFirst(b: Buckets, cls: QueueClass, sooner: seq<Entry>, later: seq<Entry>)
    requires SweepsItself(b, cls, sooner, later) && Survivors(b.discrete) != []
    ensures TakenGes(Navigated(b)) != TakenGes(b)
  {
    SweptNumberIsElsewhere(b, cls, sooner, later);
    if Survivors(b.discrete)[0].command.ges.Some? {
      CountHas(Survivors(b.discrete), 0);
    }
    assert Navigated(b).discrete[0] == Survivors(b.discrete)[0];
  }

  lemma {:induction false} StandInComesFirst(b: Buckets, cls: QueueClass, sooner: seq<Entry>, later: seq<Entry>)
    requires SweepsItself(b, cls, sooner, later) && Survivors(b.discrete) == [] && Unnumbered(sooner)
    ensures TakenGes(Navigated(b)) == TakenGes(b) && Dequeued(Navigated(b)).discrete == Fillers(later)
  {
    var after, e := Navigated(b), b.Of(cls)[0];
    assert b.Of(cls) == [e];
    SweptNumberIsElsewhere(b, cls, sooner, later);
    SweptComesFirst(e, sooner, later);
    assert after.discrete == [Noop(e.command.ges)] + Fillers(later);
    SelectedIsFirst(after, Critical);
    SelectedIsFirst(after, Discrete);
    assert Selected(after) == Some(Discrete);
    assert after.discrete[1..] == Fillers(later);
  }

  lemma {:induction false} SoonerComesFirst(b: Buckets, cls: QueueClass, sooner: seq<Entry>, later: seq<Entry>)
    requires SweepsItself(b, cls, sooner, later) && Survivors(b.discrete) == [] && !Unnumbered(sooner)
    ensures TakenGes(Navigated(b)) != TakenGes(b)
  {
    SweptNumberIsElsewhere(b, cls, sooner, later);
    assert sooner + b.Of(cls) + later == sooner + (b.Of(cls) + later);
    NumberedComesFirst(sooner, b.Of(cls) + later);
  }

  // Its stand-in is taken exactly when it comes first, that is when nothing
  // survives and nothing swept before it is numbered.
  lemma {:induction false} SweptNumberIff(b: Buckets, cls: QueueClass, sooner: seq<Entry>, later: seq<Entry>)
    requires SweepsItself(b, cls, sooner, later)
    ensures TakenGes(Navigated(b)) == TakenGes(b) <==> Survivors(b.discrete) == [] && Unnumbered(sooner)
    ensures Survivors(b.discrete) == [] && Unnumbered(sooner) ==> Dequeued(Navigated(b)).discrete == Fillers(later)
  {
    if Survivors(b.discrete) != [] {
      KeptComesFirst(b, cls, sooner, later);
    } else if Unnumbered(sooner) {
      StandInComesFirst(b, cls, sooner, later);
    } else {
      SoonerComesFirst(b, cls, sooner, later);
    }
  }

  lemma {:induction false} SweptComesFirst(e: Entry, sooner: seq<Entry>, later: seq<Entry>)
    requires e.command.ges.Some? && Unnumbered(sooner)
    ensures Fillers(sooner + [e] + later) == [Noop(e.command.ges)] + Fillers(later)
  {
    assert sooner + [e] + later == sooner + ([e] + later);
    UnnumberedFillers(sooner, [e] + later);
    assert ([e] + later)[1..] == later;
  }

  // The first stand-in, when something numbered was swept before.
  lemma {:induction false} NumberedComesFirst(sooner: seq<Entry>, rest: seq<Entry>)
    requires |sooner| <= 1 && !Unnumbered(sooner)
    ensures var f := Fillers(sooner + rest);
      f != [] && f[0].command.ges.Some? && Count(sooner, f[0].command.ges.value) >= 1
  {
    assert sooner == [sooner[0]];
    assert (sooner + rest)[0] == sooner[0];
    CountHas(sooner, 0);
  }

  lemma {:induction false} AggregatedPurgeIff(b: Buckets)
    requires LeadsWithNavigation(b) && Selected(b) == Some(Aggregated) && TakenGes(b).Some?
    ensures PurgeWorks(b) <==> PurgeIsSafe(b)
  {
    SweptNumberIff(b, Aggregated, b.continuous, Casualties(b.discrete));
    SubqueuesAreOrdered(b.discrete);
    OrderedFillers(Casualties(b.discrete));
  }

  lemma {:induction false} ContinuousPurgeIff(b: Buckets)
    requires LeadsWithNavigation(b) && Selected(b) == Some(Continuous) && TakenGes(b).Some?
    ensures PurgeWorks(b) <==> PurgeIsSafe(b)
  {
    var lost := Casualties(b.discrete);
    assert b.continuous + b.aggregated + lost == [] + b.continuous + (b.aggregated + lost);
    SweptNumberIff(b, Continuous, [], b.aggregated + lost);
    SubqueuesAreOrdered(b.discrete);
    SlimIsOrdered(b.aggregated);
    OrderedConcat(b.aggregated, lost);
    OrderedFillers(b.aggregated + lost);
  }

  // A swept navigation without a number leaves no stand-in at all.
  lemma {:induction false} SweptWithoutNumberIff(b: Buckets)
    requires LeadsWithNavigation(b) && Selected(b).value in {Aggregated, Continuous} && TakenGes(b).None?
    ensures PurgeWorks(b) <==> PurgeIsSafe(b)
  {
    var after, kept := Navigated(b), Survivors(b.discrete);
    FillersAreNumbered(b.continuous + b.aggregated + Casualties(b.discrete));
    SelectedIsFirst(b, Critical);
    SelectedIsFirst(after, Critical);
    SelectedIsFirst(after, Discrete);
    if kept == [] {
      assert TakenGes(after) == None <==> after.Size() == 0;
    } else {
      assert after.discrete[0] == kept[0];
      if kept[0].command.ges.None? {
        assert Selected(after) == Some(Discrete);
        TailIsOrderedIff(after.discrete);
        NavigationOrderIsExact(b);
      }
    }
  }

  // The purge works exactly when it is safe.
  lemma {:induction false} PurgeWorksIffSafe(b: Buckets)
    requires LeadsWithNavigation(b)
    ensures PurgeWorks(b) <==> PurgeIsSafe(b)
  {
    match Selected(b).value {
      case Discrete => DiscretePurgeIff(b);
      case Critical => CriticalPurgeIff(b);
      case _ =>
        if TakenGes(b).None? {
          SweptWithoutNumberIff(b);
        } else if Selected(b) == Some(Aggregated) {
          AggregatedPurgeIff(b);
        } else {
          ContinuousPurgeIff(b);
        }
    }
  }

  // This turn of the loop reaches the purge.
  predicate TakesNavigation(s: Slave, expired: bool) {
    match Peeked(s.buckets)
    case None => false
    case Some(e) =>
      !(IsPressed(s) && IsDroppable(e.queueClass)) && !expired && s.hasPage && IsNavigation(e.command)
  }

  // ---------- One turn of the drain loop ----------

  // In step, the entry taken carries the slave's next number, or none; and an
  // empty queue means everything sent is done.
  lemma {:induction false} FrontIsNext(s: Slave, n: nat)
    requires InStep(s, n) && s.inFlight.None?
    ensures match Peeked(s.buckets)
      case Some(e) => e.command.altGes.None? && (e.command.ges.Some? ==> e.command.ges.value == s.currentGes + 1)
      case None => s.currentGes == n
  {
    var b := s.buckets;
    if Selected(b).Some? {
      var cls := Selected(b).value;
      var e := b.Of(cls)[0];
      if e.command.ges.Some? {
        var v := e.command.ges.value;
        CountHas(b.Of(cls), 0);
        CountWithin(b, cls, v);
        assert b.Holds(v) >= 1;
        assert b.Holds(s.currentGes + 1) == 1;
        LeastIsAtAHead(s, n, v);
      }
    } else {
      SelectedIsFirst(b, Critical);
      assert b.Holds(n) == 0;
    }
  }

  lemma {:induction false} HolderOf(b: Buckets, g: int) returns (cls: QueueClass)
    requires b.Holds(g) >= 1
    ensures Count(b.Of(cls), g) >= 1
  {
    if Count(b.critical, g) >= 1 {
      cls := Critical;
    } else if Count(b.discrete, g) >= 1 {
      cls := Discrete;
    } else if Count(b.aggregated, g) >= 1 {
      cls := Aggregated;
    } else {
      cls := Continuous;
    }
  }

  lemma {:induction false} LeastIsAtAHead(s: Slave, n: nat, v: int)
    requires Tidy(s.buckets) && Covers(s, n) && s.inFlight.None?
    requires Selected(s.buckets).Some? && HeadGes(s.buckets, Selected(s.buckets).value) == Some(v)
    requires s.buckets.Holds(v) >= 1 && s.buckets.Holds(s.currentGes + 1) == 1
    ensures v == s.currentGes + 1
  {
    var b, least := s.buckets, s.currentGes + 1;
    var cls := HolderOf(b, least);
    var i := CountIsHeld(b.Of(cls), least);
    SelectedIsFirst(b, cls);
    var head := HeadGes(b, cls);
    assert head.Some?;
    CountHas(b.Of(cls), 0);
    CountWithin(b, cls, head.value);
    assert head.value >= least;
    assert head.value <= least;
  }

  lemma {:induction false} DequeueStaysTidy(b: Buckets)
    requires Tidy(b) && Selected(b).Some?
    ensures Tidy(Dequeued(b))
  {
  }

  // Taking out the next number and counting it as done keeps the cover.
  lemma {:induction false} TakingNextKeepsCover(s: Slave, b: Buckets, n: nat, c: Command)
    requires Covers(s, n) && s.inFlight.None?
    requires forall g :: s.buckets.Holds(g) == b.Holds(g) + One(c.ges, g)
    requires c.ges.Some? ==> c.ges.value == s.currentGes + 1
    ensures Covers(s.(buckets := b, inFlight := Some(c)), n)
    ensures c.ges.Some? ==> Covers(s.(buckets := b, currentGes := s.currentGes + 1), n)
    ensures c.ges.None? ==> Covers(s.(buckets := b), n)
  {
    if c.ges.Some? {
      assert s.buckets.Holds(c.ges.value) >= 1;
    }
    forall g ensures b.Holds(g) + One(c.ges, g) == if s.currentGes < g <= n then 1 else 0 {
      assert s.buckets.Holds(g) == b.Holds(g) + One(c.ges, g);
    }
  }

  // What a turn of the loop consumes: nothing, or exactly the next number.
  ghost predicate TurnIsSound(s: Slave, n: nat, s': Slave, t: Taken) {
    && t in {Idle, Dropped, Evicted, FastNoop, Dispatched}
    && (t == Idle ==> s.buckets.Size() == 0 && s.currentGes == n && s' == s.(draining := false))
    && (t != Idle ==>
          && Peeked(s.buckets).Some?
          && var c := Peeked(s.buckets).value.command;
          && (c.ges.Some? ==> c.ges.value == s.currentGes + 1)
          && s'.currentGes == s.currentGes + (if c.ges.Some? && t != Dispatched then 1 else 0)
          && (t == Dispatched <==> s'.inFlight == Some(c)) && (t != Dispatched ==> s'.inFlight.None?)
          && s'.draining == s.draining)
  }

  lemma {:induction false} CountingStaysInStep(s: Slave, b: Buckets, n: nat, c: Command, isGapSkip: bool)
    requires InStep(s, n) && s.inFlight.None? && Tidy(b)
    requires forall g :: s.buckets.Holds(g) == b.Holds(g) + One(c.ges, g)
    requires c.ges.Some? ==> c.ges.value == s.currentGes + 1
    ensures InStep(IncrementedFor(s.(buckets := b), c.ges, isGapSkip), n)
  {
    TakingNextKeepsCover(s, b, n, c);
    var s' := IncrementedFor(s.(buckets := b), c.ges, isGapSkip);
    var plain := if c.ges.Some? then s.(buckets := b, currentGes := s.currentGes + 1) else s.(buckets := b);
    SameCover(plain, s', n);
  }

  lemma {:induction false} SameCover(s: Slave, s': Slave, n: nat)
    requires Covers(s, n)
    requires s'.buckets == s.buckets && s'.currentGes == s.currentGes && s'.inFlight == s.inFlight
    ensures Covers(s', n)
  {
  }

  lemma {:induction false} FlyingStaysInStep(s: Slave, b: Buckets, n: nat, c: Command)
    requires InStep(s, n) && s.inFlight.None? && s.draining && Tidy(b) && c.altGes.None?
    requires forall g :: s.buckets.Holds(g) == b.Holds(g) + One(c.ges, g)
    requires c.ges.Some? ==> c.ges.value == s.currentGes + 1
    ensures InStep(s.(buckets := b, inFlight := Some(c)), n)
  {
  }

  // What remains once the front is taken, whether or not a purge came first.
  function Remaining(s: Slave, expired: bool): Buckets {
    Dequeued(if TakesNavigation(s, expired) then Navigated(s.buckets) else s.buckets)
  }

  lemma {:induction false} NavigationLeads(s: Slave, n: nat)
    requires InStep(s, n) && s.inFlight.None?
    requires Peeked(s.buckets).Some? && IsNavigation(Peeked(s.buckets).value.command)
    ensures LeadsWithNavigation(s.buckets)
  {
    var b := s.buckets;
    FrontIsNext(s, n);
    forall cls, g ensures Count(b.Of(cls), g) <= b.Holds(g) <= 1 {
      CountWithin(b, cls, g);
      assert b.Holds(g) + One(InFlightGes(s), g) <= 1;
    }
    forall g | b.Holds(g) >= 1 ensures g > s.currentGes {
      assert b.Holds(g) + One(InFlightGes(s), g) >= 1;
    }
  }

  // All but the order of the discrete queue survives the purge.
  lemma {:induction false} PurgedIsTidyIff(b: Buckets)
    requires Tidy(b)
    ensures Tidy(Dequeued(Navigated(b))) <==> Ordered(Dequeued(Navigated(b)).discrete)
  {
    SubqueuesArePlain(b.discrete);
    var dropped := b.continuous + b.aggregated + Casualties(b.discrete);
    PlainFillers(dropped);
    ConcatIsPlain(Survivors(b.discrete), Fillers(dropped));
    TailsAreTidy(Navigated(b));
  }

  lemma {:induction false} TailsAreTidy(b: Buckets)
    requires IsSlim(b) && Ordered(b.critical)
    requires Plain(b.critical) && Plain(b.discrete) && Plain(b.aggregated) && Plain(b.continuous)
    ensures Tidy(Dequeued(b)) <==> Ordered(Dequeued(b).discrete)
  {
  }

  // Counting, the purge keeps all numbers and one entry leaves.
  lemma {:induction false} PurgedHolds(b: Buckets, g: int)
    ensures b.Holds(g) == Dequeued(Navigated(b)).Holds(g) + One(TakenGes(Navigated(b)), g)
  {
    PurgesConserve(b, g);
    if Selected(Navigated(b)).Some? {
      DequeueTakesOne(Navigated(b), g);
    }
  }

  lemma {:induction false} RemainingIsTheRest(s: Slave, n: nat, expired: bool)
    requires InStep(s, n) && s.inFlight.None? && Peeked(s.buckets).Some?
    requires TakesNavigation(s, expired) ==> PurgeIsSafe(s.buckets)
    ensures Tidy(Remaining(s, expired))
    ensures forall g ::
      s.buckets.Holds(g) == Remaining(s, expired).Holds(g) + One(Peeked(s.buckets).value.command.ges, g)
  {
    var b := s.buckets;
    if TakesNavigation(s, expired) {
      NavigationLeads(s, n);
      PurgeWorksIffSafe(b);
      PurgedIsTidyIff(b);
      forall g ensures b.Holds(g) == Remaining(s, expired).Holds(g) + One(TakenGes(b), g) {
        PurgedHolds(b, g);
      }
    } else {
      DequeueStaysTidy(b);
      forall g ensures b.Holds(g) == Remaining(s, expired).Holds(g) + One(TakenGes(b), g) {
        DequeueTakesOne(b, g);
      }
    }
  }

  // An unsafe purge puts the slave out of step: the discrete queue is out of
  // order, or another number than the navigation's has left the queues.
  lemma {:induction false} UnsafePurgeBreaksStep(s: Slave, n: nat, expired: bool)
    requires InStep(s, n) && s.draining && s.inFlight.None? && s.hasPage
    requires TakesNavigation(s, expired) && !PurgeIsSafe(s.buckets)
    ensures !InStep(Take(s, expired).0, n)
  {
    var b, c := s.buckets, Peeked(s.buckets).value.command;
    FrontIsNext(s, n);
    NavigationLeads(s, n);
    PurgeWorksIffSafe(b);
    PurgedIsTidyIff(b);
    TakeUnfolds(s, expired, c);
    if TakenGes(Navigated(b)) != c.ges {
      var g := if c.ges.Some? then c.ges.value else TakenGes(Navigated(b)).value;
      PurgedHolds(b, g);
      WrongNumberBreaksCover(s, n, c, Remaining(s, expired), Take(s, expired).0, Take(s, expired).1, g);
    }
  }

  lemma {:induction false} WrongNumberBreaksCover(s: Slave, n: nat, c: Command, b: Buckets, s': Slave, t: Taken, g: int)
    requires Covers(s, n) && s.inFlight.None? && IsFrontTurn(s, c, b, s', t)
    requires c.ges.Some? ==> c.ges.value == s.currentGes + 1
    requires if c.ges.Some? then g == c.ges.value && s.currentGes < n && b.Holds(g) == s.buckets.Holds(g)
             else s.buckets.Holds(g) >= 1 && b.Holds(g) < s.buckets.Holds(g)
    ensures !Covers(s', n)
  {
    assert s.buckets.Holds(g) == if s.currentGes < g <= n then 1 else 0;
    if t == Dispatched {
      assert s'.buckets.Holds(g) + One(c.ges, g) != if s'.currentGes < g <= n then 1 else 0;
    } else {
      assert InFlightGes(s') == None && s'.buckets == b;
      assert b.Holds(g) != if s'.currentGes < g <= n then 1 else 0;
    }
  }

  lemma {:induction false} IdleTurn(s: Slave, n: nat, expired: bool)
    requires InStep(s, n) && s.inFlight.None? && Peeked(s.buckets).None?
    ensures InStep(Take(s, expired).0, n)
    ensures TurnIsSound(s, n, Take(s, expired).0, Take(s, expired).1)
  {
    FrontIsNext(s, n);
    SelectedIsFirst(s.buckets, Critical);
    SameCover(s, s.(draining := false), n);
  }

  lemma {:induction false} FrontTurnStaysInStep(
      s: Slave, n: nat, expired: bool, c: Command, b: Buckets, s': Slave, t: Taken)
    requires InStep(s, n) && s.draining && s.inFlight.None? && c.altGes.None?
    requires c.ges.Some? ==> c.ges.value == s.currentGes + 1
    requires Tidy(b) && forall g :: s.buckets.Holds(g) == b.Holds(g) + One(c.ges, g)
    requires IsFrontTurn(s, c, b, s', t)
    ensures InStep(s', n)
  {
    match t {
      case Dispatched => FlyingStaysInStep(s, b, n, c);
      case Evicted => CountingStaysInStep(s, b, n, c, true);
      case _ => CountingStaysInStep(s, b, n, c, false);
    }
  }

  // A turn of the loop keeps the slave in step exactly when it reaches no
  // unsafe purge. It then never meets a stale or a blocked number, and raises
  // the slave's number by exactly what it consumed.
  lemma {:induction false} TakeStaysInStepIff(s: Slave, n: nat, expired: bool)
    requires InStep(s, n) && s.draining && s.inFlight.None? && s.hasPage
    ensures InStep(Take(s, expired).0, n) <==> !TakesNavigation(s, expired) || PurgeIsSafe(s.buckets)
    ensures InStep(Take(s, expired).0, n) ==> TurnIsSound(s, n, Take(s, expired).0, Take(s, expired).1)
  {
    if Peeked(s.buckets).None? {
      IdleTurn(s, n, expired);
    } else if TakesNavigation(s, expired) && !PurgeIsSafe(s.buckets) {
      UnsafePurgeBreaksStep(s, n, expired);
    } else {
      FrontIsNext(s, n);
      var c := Peeked(s.buckets).value.command;
      RemainingIsTheRest(s, n, expired);
      TakeUnfolds(s, expired, c);
      FrontTurnStaysInStep(s, n, expired, c, Remaining(s, expired), Take(s, expired).0, Take(s, expired).1);
    }
  }

  // The four ways of consuming the front.
  ghost predicate IsFrontTurn(s: Slave, c: Command, b: Buckets, s': Slave, t: Taken) {
    match t
    case Dropped => s' == IncrementedFor(s.(buckets := b), c.ges, false)
    case Evicted => s' == IncrementedFor(s.(buckets := b), c.ges, true)
    case FastNoop => s' == IncrementedFor(s.(buckets := b), c.ges, false)
    case Dispatched => s' == s.(buckets := b, inFlight := Some(c))
    case _ => false
  }

  // The turn, given that the front carries the next number or none.
  lemma {:induction false} TakeUnfolds(s: Slave, expired: bool, c: Command)
    requires Peeked(s.buckets).Some? && c == Peeked(s.buckets).value.command
    requires s.hasPage && s.watchdog.None? && s.inFlight.None?
    requires c.altGes.None? && (c.ges.Some? ==> c.ges.value == s.currentGes + 1)
    ensures IsFrontTurn(s, c, Remaining(s, expired), Take(s, expired).0, Take(s, expired).1)
    ensures var (s', t) := Take(s, expired);
      && s'.currentGes == s.currentGes + (if c.ges.Some? && t != Dispatched then 1 else 0)
      && (t == Dispatched <==> s'.inFlight == Some(c)) && (t != Dispatched ==> s'.inFlight.None?)
      && s'.draining == s.draining
  {
    FrontTurnIs(s, expired, c);
    FrontTurnCounts(s, c, Remaining(s, expired), Take(s, expired).0, Take(s, expired).1);
  }

  lemma {:induction false} FrontTurnIs(s: Slave, expired: bool, c: Command)
    requires Peeked(s.buckets).Some? && c == Peeked(s.buckets).value.command
    requires s.hasPage && s.watchdog.None?
    requires c.altGes.None? && (c.ges.Some? ==> c.ges.value == s.currentGes + 1)
    ensures IsFrontTurn(s, c, Remaining(s, expired), Take(s, expired).0, Take(s, expired).1)
  {
  }

  lemma {:induction false} FrontTurnCounts(s: Slave, c: Command, b: Buckets, s': Slave, t: Taken)
    requires IsFrontTurn(s, c, b, s', t) && s.inFlight.None?
    ensures s'.currentGes == s.currentGes + (if c.ges.Some? && t != Dispatched then 1 else 0)
    ensures (t == Dispatched <==> s'.inFlight == Some(c)) && (t != Dispatched ==> s'.inFlight.None?)
    ensures s'.draining == s.draining
  {
    match t {
      case Dispatched =>
      case Evicted => CountKeeps(s.(buckets := b), c.ges, true);
      case Dropped => CountKeeps(s.(buckets := b), c.ges, false);
      case FastNoop => CountKeeps(s.(buckets := b), c.ges, false);
      case _ =>
    }
  }

  lemma CountKeeps(s: Slave, ges: Option<int>, isGapSkip: bool)
    ensures var s' := IncrementedFor(s, ges, isGapSkip);
      && s'.currentGes == s.currentGes + (if ges.Some? then 1 else 0)
      && s'.inFlight == s.inFlight && s'.draining == s.draining
  {
  }

  // ---------- The command in flight ends ----------

  lemma {:induction false} FinishIsStalledByOther(s: Slave, n: nat)
    requires InStep(s, n) && s.inFlight.Some? && s.inFlight.value.ges.Some?
    ensures !InStep(Finished(s, ReturnedOther), n)
  {
    var g0 := s.inFlight.value.ges.value;
    var s' := Finished(s, ReturnedOther);
    assert s.buckets.Holds(g0) + One(InFlightGes(s), g0) >= 1;
    assert s'.buckets.Holds(g0) + One(InFlightGes(s'), g0) == 0;
  }

  lemma {:induction false} LandingKeepsCover(s: Slave, n: nat)
    requires InStep(s, n) && s.inFlight.Some?
    ensures s.inFlight.value.ges.Some? ==> Covers(s.(inFlight := None, currentGes := s.currentGes + 1), n)
    ensures s.inFlight.value.ges.None? ==> Covers(s.(inFlight := None), n)
  {
    var c := s.inFlight.value;
    if c.ges.Some? {
      assert s.buckets.Holds(c.ges.value) + One(InFlightGes(s), c.ges.value) >= 1;
    }
    forall g ensures s.buckets.Holds(g) == if s.currentGes + One(c.ges, s.currentGes + 1) < g <= n then 1 else 0 {
      assert s.buckets.Holds(g) + One(InFlightGes(s), g) == if s.currentGes < g <= n then 1 else 0;
    }
  }

  lemma {:induction false} LandedState(s: Slave, outcome: Outcome) returns (landed: Slave)
    requires s.inFlight.Some? && s.inFlight.value.altGes.None?
    requires outcome != ReturnedOther || s.inFlight.value.ges.None?
    ensures landed == if s.inFlight.value.ges.None? then s.(inFlight := None)
                      else s.(inFlight := None, currentGes := s.currentGes + 1)
    ensures var s' := Finished(s, outcome);
      && s'.buckets == landed.buckets && s'.currentGes == landed.currentGes && s'.inFlight.None?
      && (s.watchdog.None? ==> s'.watchdog.None?)
  {
    var c := s.inFlight.value;
    landed := if c.ges.Some? then s.(inFlight := None, currentGes := s.currentGes + 1) else s.(inFlight := None);
    assert GateGes(c) == c.ges;
    var down := s.(inFlight := None);
    CountedFor(down, c.ges, true);
    CountedFor(down, c.ges, false);
  }

  lemma CountedFor(s: Slave, ges: Option<int>, isGapSkip: bool)
    ensures var s' := IncrementedFor(s, ges, isGapSkip);
      && s'.buckets == s.buckets && s'.inFlight == s.inFlight && s'.draining == s.draining && s'.hasPage == s.hasPage
      && s'.currentGes == s.currentGes + (if ges.Some? then 1 else 0)
      && (s.watchdog.None? ==> s'.watchdog.None?)
  {
  }

  // The end of a command keeps the slave in step exactly when the slave's
  // number moves on: any other answer than true, false or a throw stalls it.
  lemma {:induction false} FinishStaysInStepIff(s: Slave, n: nat, outcome: Outcome)
    requires InStep(s, n) && s.inFlight.Some?
    ensures InStep(Finished(s, outcome), n) <==> outcome != ReturnedOther || s.inFlight.value.ges.None?
  {
    if outcome != ReturnedOther || s.inFlight.value.ges.None? {
      var landed := LandedState(s, outcome);
      LandingKeepsCover(s, n);
      SameCover(landed, Finished(s, outcome), n);
    } else {
      FinishIsStalledByOther(s, n);
    }
  }

  // ---------- A command arrives ----------

  // The last number sent, after this command.
  function LastSent(n: nat, c: Command): nat { if c.ges.Some? then n + 1 else n }

  predicate IsInOrder(c: Command, n: nat) { c.altGes.None? && (c.ges.Some? ==> c.ges.value == n + 1) }

  // The command is refused or lost: the queue is full, or it is a delta scroll
  // that meets a pending one where either has no payload.
  predicate IsLost(s: Slave, c: Command) {
    var cls := Classify(c);
    && !(IsPressed(s) && IsDroppable(cls))
    && (Overflows(s.buckets, cls) || Vanishes(s.buckets, cls, Entry(c, cls)))
  }

  lemma {:induction false} CoverGrows(s: Slave, s': Slave, n: nat, c: Command)
    requires Covers(s, n) && IsInOrder(c, n)
    requires s'.currentGes == s.currentGes && s'.inFlight == s.inFlight
    requires forall g :: s'.buckets.Holds(g) == s.buckets.Holds(g) + One(c.ges, g)
    ensures Covers(s', LastSent(n, c))
    ensures forall cls, g :: Count(s'.buckets.Of(cls), g) <= 1
  {
    var m := LastSent(n, c);
    forall g ensures s'.buckets.Holds(g) + One(InFlightGes(s'), g) == if s'.currentGes < g <= m then 1 else 0 {
      assert s.buckets.Holds(g) + One(InFlightGes(s), g) == if s.currentGes < g <= n then 1 else 0;
      assert s'.buckets.Holds(g) == s.buckets.Holds(g) + One(c.ges, g);
    }
    forall cls, g ensures Count(s'.buckets.Of(cls), g) <= 1 {
      CountWithin(s'.buckets, cls, g);
      assert s'.buckets.Holds(g) + One(InFlightGes(s'), g) <= 1;
    }
  }

  lemma {:induction false} BoundedByLast(s: Slave, n: nat, cls: QueueClass)
    requires Covers(s, n)
    ensures forall g :: Count(s.buckets.Of(cls), g) >= 1 ==> g <= n
  {
    forall g | Count(s.buckets.Of(cls), g) >= 1 ensures g <= n {
      CountWithin(s.buckets, cls, g);
      assert s.buckets.Holds(g) + One(InFlightGes(s), g) >= 1;
    }
  }

  // The two single-entry buckets stay single and plain.
  lemma {:induction false} MergeStaysPlain(bucket: seq<Entry>, cls: QueueClass, e: Entry)
    requires cls == Continuous || cls == Aggregated
    requires |bucket| <= 1 && Plain(bucket) && e.command.altGes.None?
    ensures |Applied(bucket, cls, e).0| <= 1 && Plain(Applied(bucket, cls, e).0)
  {
  }

  lemma {:induction false} InsertStaysTidy(s: Slave, n: nat, cls: QueueClass, e: Entry)
    requires InStep(s, n) && IsInOrder(e.command, n)
    requires forall g :: Count(Inserted(s.buckets, cls, e).discrete, g) <= 1
    ensures Tidy(Inserted(s.buckets, cls, e))
  {
    var b := s.buckets;
    BoundedByLast(s, n, cls);
    if cls == Critical || cls == Discrete {
      AppendStaysTidy(b.Of(cls), e, n);
    } else {
      MergeStaysPlain(b.Of(cls), cls, e);
      var dropped := Applied(b.Of(cls), cls, e).1;
      assert Inserted(b, cls, e).discrete == Filled(b.discrete, dropped);
      FilledStaysTidy(b.discrete, dropped);
    }
  }

  lemma {:induction false} StandInStaysTidy(s: Slave, n: nat, c: Command)
    requires InStep(s, n)
    requires forall g :: Count(SortByGes(s.buckets.discrete + [Noop(c.ges)]), g) <= 1
    ensures Tidy(s.buckets.(discrete := SortByGes(s.buckets.discrete + [Noop(c.ges)])))
  {
    var longer := s.buckets.discrete + [Noop(c.ges)];
    ConcatIsPlain(s.buckets.discrete, [Noop(c.ges)]);
    PlainSort(longer);
    SortSorts(longer);
    SortedDistinctIsOrdered(SortByGes(longer));
  }

  lemma {:induction false} StandInStaysInStep(s: Slave, n: nat, c: Command)
    requires InStep(s, n) && IsInOrder(c, n) && IsPressed(s) && IsDroppable(Classify(c))
    ensures InStep(Enqueued(s, c), LastSent(n, c))
  {
    var s' := Enqueued(s, c);
    var noop := Noop(c.ges);
    forall g ensures s'.buckets.Holds(g) == s.buckets.Holds(g) + One(c.ges, g) {
      CountOfConcat(s.buckets.discrete, [noop], g);
      CountOfOne(noop, g);
      CountOfSort(s.buckets.discrete + [noop], g);
    }
    CoverGrows(s, s', n, c);
    assert forall g :: Count(s'.buckets.Of(Discrete), g) <= 1;
    StandInStaysTidy(s, n, c);
  }

  lemma {:induction false} InsertStaysInStep(s: Slave, n: nat, c: Command)
    requires InStep(s, n) && IsInOrder(c, n) && !IsLost(s, c) && !(IsPressed(s) && IsDroppable(Classify(c)))
    ensures InStep(Enqueued(s, c), LastSent(n, c))
  {
    var cls := Classify(c);
    var s' := Enqueued(s, c);
    forall g ensures s'.buckets.Holds(g) == s.buckets.Holds(g) + One(c.ges, g) {
      InsertConserves(s.buckets, cls, Entry(c, cls), g);
    }
    CoverGrows(s, s', n, c);
    assert forall g :: Count(s'.buckets.Of(Discrete), g) <= 1;
    InsertStaysTidy(s, n, cls, Entry(c, cls));
  }

  // A command sent in order keeps the slave in step exactly when it is not lost
  // or carries no number.
  lemma {:induction false} SendStaysInStepIff(s: Slave, n: nat, c: Command)
    requires InStep(s, n) && IsInOrder(c, n)
    ensures InStep(Enqueued(s, c), LastSent(n, c)) <==> !IsLost(s, c) || c.ges.None?
  {
    if IsLost(s, c) {
      LosingChangesNoQueue(s, c);
      LostNumberIsMissing(s, Enqueued(s, c), n, c);
    } else if IsPressed(s) && IsDroppable(Classify(c)) {
      StandInStaysInStep(s, n, c);
    } else {
      InsertStaysInStep(s, n, c);
    }
  }

  lemma {:induction false} LosingChangesNoQueue(s: Slave, c: Command)
    requires IsLost(s, c)
    ensures Enqueued(s, c).buckets == s.buckets
  {
  }

  lemma {:induction false} LostNumberIsMissing(s: Slave, s': Slave, n: nat, c: Command)
    requires Covers(s, n) && s'.buckets == s.buckets && s'.inFlight == s.inFlight && s'.currentGes == s.currentGes
    ensures Covers(s', LastSent(n, c)) <==> c.ges.None?
  {
    assert s.buckets.Holds(n + 1) + One(InFlightGes(s), n + 1) == 0;
    if c.ges.None? {
      forall g ensures s'.buckets.Holds(g) + One(InFlightGes(s'), g) == if s'.currentGes < g <= n then 1 else 0 {
        assert s.buckets.Holds(g) + One(InFlightGes(s), g) == if s.currentGes < g <= n then 1 else 0;
      }
    }
  }

  // ---------- Whole runs ----------

  datatype Event =
    | Sent(command: Command)
    | Turn(expired: bool)
    | Ended(outcome: Outcome)
    | GlobalPressure(active: bool)
    | OwnPressure(active: bool)
    | ScrollPurge
    | WatchdogFires

  // An event that cannot happen in a state changes nothing.
  function Step(s: Slave, ev: Event): Slave {
    match ev
    case Sent(c) => Enqueued(s, c)
    case Turn(expired) => if s.draining && s.inFlight.None? then Take(s, expired).0 else s
    case Ended(outcome) => if s.inFlight.Some? then Finished(s, outcome) else s
    case GlobalPressure(active) => WithGlobalBackpressure(s, active)
    case OwnPressure(active) => WithOwnBackpressure(s, active)
    case ScrollPurge => s.(buckets := Purged(s.buckets))
    case WatchdogFires => if s.watchdog.Some? then WatchdogFired(s) else s
  }

  function After(s: Slave, evs: seq<Event>): Slave {
    if evs == [] then s else Step(After(s, evs[..|evs| - 1]), evs[|evs| - 1])
  }

  function SentBy(n: nat, evs: seq<Event>): nat {
    if evs == [] then n
    else
      var before := SentBy(n, evs[..|evs| - 1]);
      if evs[|evs| - 1].Sent? then LastSent(before, evs[|evs| - 1].command) else before
  }

  // What the outside must respect: numbers are sent in order and not lost, the
  // simulator answers, and a navigation does not purge out of order.
  ghost predicate Respects(s: Slave, n: nat, ev: Event) {
    match ev
    case Sent(c) => IsInOrder(c, n) && (IsLost(s, c) ==> c.ges.None?)
    case Turn(expired) =>
      s.draining && s.inFlight.None? && TakesNavigation(s, expired) ==> PurgeIsSafe(s.buckets)
    case Ended(outcome) => s.inFlight.Some? && outcome == ReturnedOther ==> s.inFlight.value.ges.None?
    case _ => true
  }

  // ... at every event of the run.
  ghost predicate AllRespect(s: Slave, n: nat, evs: seq<Event>) {
    evs != [] ==>
      var earlier := evs[..|evs| - 1];
      AllRespect(s, n, earlier) && Respects(After(s, earlier), SentBy(n, earlier), evs[|evs| - 1])
  }

  lemma GatedKeepsPage(s: Slave, c: Command)
    ensures Gated(s, c).0.hasPage == s.hasPage
  {
  }

  lemma TakeKeepsPage(s: Slave, expired: bool)
    ensures Take(s, expired).0.hasPage == s.hasPage
  {
    if Peeked(s.buckets).Some? {
      GatedKeepsPage(s, Peeked(s.buckets).value.command);
    }
  }

  lemma {:induction false} EnqueueKeepsPage(s: Slave, c: Command)
    ensures Enqueued(s, c).hasPage == s.hasPage
  {
  }

  lemma {:induction false} StepKeepsPage(s: Slave, ev: Event)
    ensures Step(s, ev).hasPage == s.hasPage
  {
    match ev {
      case Sent(c) => EnqueueKeepsPage(s, c);
      case Turn(expired) => TakeKeepsPage(s, expired);
      case _ =>
    }
  }

  lemma {:induction false} StepStaysInStepIff(s: Slave, n: nat, ev: Event)
    requires InStep(s, n) && s.hasPage && (ev.Sent? ==> IsInOrder(ev.command, n))
    ensures InStep(Step(s, ev), if ev.Sent? then LastSent(n, ev.command) else n) <==> Respects(s, n, ev)
  {
    match ev {
      case Sent(c) => SendStaysInStepIff(s, n, c);
      case Turn(expired) => if s.draining && s.inFlight.None? { TakeStaysInStepIff(s, n, expired); }
      case Ended(outcome) => if s.inFlight.Some? { FinishStaysInStepIff(s, n, outcome); }
      case GlobalPressure(active) => BackpressureStaysInStep(s, n, active);
      case OwnPressure(active) => BackpressureStaysInStep(s, n, active);
      case ScrollPurge => PurgeStaysInStep(s, n);
      case WatchdogFires =>
    }
  }

  // Commands are sent in the order of their numbers.
  ghost predicate SentInOrder(n: nat, evs: seq<Event>) {
    evs != [] ==>
      var earlier, last := evs[..|evs| - 1], evs[|evs| - 1];
      SentInOrder(n, earlier) && (last.Sent? ==> IsInOrder(last.command, SentBy(n, earlier)))
  }

  // In step at every point of the run.
  ghost predicate AlwaysInStep(s: Slave, n: nat, evs: seq<Event>) {
    InStep(After(s, evs), SentBy(n, evs)) && (evs != [] ==> AlwaysInStep(s, n, evs[..|evs| - 1]))
  }

  lemma {:induction false} RunKeepsPage(s: Slave, evs: seq<Event>)
    ensures After(s, evs).hasPage == s.hasPage
  {
    if evs != [] {
      RunKeepsPage(s, evs[..|evs| - 1]);
      StepKeepsPage(After(s, evs[..|evs| - 1]), evs[|evs| - 1]);
    }
  }

  // Over every interleaving of arrivals in order, turns of the loop, answers,
  // backpressure and purges, the slave is in step throughout, that is the
  // numbers waiting or in flight are always exactly those after its own up to
  // the last one sent, exactly if no command is lost, the simulator answers, and
  // no purge is unsafe.
  lemma {:induction false} EveryRunStaysInStepIff(s: Slave, n: nat, evs: seq<Event>)
    requires InStep(s, n) && s.hasPage && SentInOrder(n, evs)
    ensures AlwaysInStep(s, n, evs) <==> AllRespect(s, n, evs)
    decreases |evs|
  {
    if evs != [] {
      var k := |evs| - 1;
      var earlier := evs[..k];
      EveryRunStaysInStepIff(s, n, earlier);
      RunKeepsPage(s, earlier);
      if AlwaysInStep(s, n, earlier) {
        StepStaysInStepIff(After(s, earlier), SentBy(n, earlier), evs[k]);
      }
    }
  }

  lemma {:induction false} EveryRunStaysInStep(s: Slave, n: nat, evs: seq<Event>)
    requires InStep(s, n) && s.hasPage && AllRespect(s, n, evs)
    ensures InStep(After(s, evs), SentBy(n, evs)) && After(s, evs).hasPage
  {
    RunKeepsPage(s, evs);
    RespectfulSendsInOrder(s, n, evs);
    EveryRunStaysInStepIff(s, n, evs);
  }

  lemma {:induction false} RespectfulSendsInOrder(s: Slave, n: nat, evs: seq<Event>)
    requires AllRespect(s, n, evs)
    ensures SentInOrder(n, evs)
  {
    if evs != [] { RespectfulSendsInOrder(s, n, evs[..|evs| - 1]); }
  }

  // ---------- Capacity ----------

  lemma CountingKeepsBuckets(s: Slave, ges: Option<int>, isGapSkip: bool)
    ensures IncrementedFor(s, ges, isGapSkip).buckets == s.buckets
  {
  }

  // What the gate can leave in the queues.
  lemma {:induction false} GateLeaves(s: Slave, c: Command)
    ensures var b := Gated(s, c).0.buckets;
      b == Dequeued(AfterPurge(s, c)) || b == AfterPurge(s, c)
  {
    var s' := s.(buckets := Dequeued(AfterPurge(s, c)));
    CountingKeepsBuckets(s', GateGes(c), false);
    CountingKeepsBuckets(s'.(watchdog := None), GateGes(c), false);
  }

  lemma {:induction false} TurnKeepsCapacity(s: Slave, expired: bool)
    requires WithinCapacity(s.buckets)
    ensures WithinCapacity(Take(s, expired).0.buckets)
  {
    NavigationKeepsCapacity(s.buckets);
    ShrinkingKeepsCapacity(s.buckets);
    ShrinkingKeepsCapacity(Navigated(s.buckets));
    if Peeked(s.buckets).Some? {
      var c := Peeked(s.buckets).value.command;
      GateLeaves(s, c);
      CountingKeepsBuckets(s.(buckets := Dequeued(s.buckets)), c.ges, false);
      CountingKeepsBuckets(s.(buckets := Dequeued(s.buckets)), c.ges, true);
    }
  }

  lemma {:induction false} ArrivalKeepsCapacity(s: Slave, c: Command)
    requires WithinCapacity(s.buckets)
    ensures WithinCapacity(Enqueued(s, c).buckets)
  {
    StandInKeepsCapacity(s.buckets, c.ges);
    if !Overflows(s.buckets, Classify(c)) {
      InsertKeepsCapacity(s.buckets, Classify(c), Entry(c, Classify(c)));
    }
  }

  lemma {:induction false} EndKeepsBuckets(s: Slave, outcome: Outcome)
    requires s.inFlight.Some?
    ensures Finished(s, outcome).buckets == s.buckets
  {
  }

  lemma {:induction false} StepKeepsCapacity(s: Slave, ev: Event)
    requires WithinCapacity(s.buckets)
    ensures WithinCapacity(Step(s, ev).buckets)
  {
    match ev {
      case Sent(c) => ArrivalKeepsCapacity(s, c);
      case Turn(expired) => TurnKeepsCapacity(s, expired);
      case Ended(outcome) => if s.inFlight.Some? { EndKeepsBuckets(s, outcome); }
      case GlobalPressure(active) => ShrinkingKeepsCapacity(s.buckets);
      case OwnPressure(active) => ShrinkingKeepsCapacity(s.buckets);
      case ScrollPurge => ShrinkingKeepsCapacity(s.buckets);
      case WatchdogFires => if s.watchdog.Some? { CountingKeepsBuckets(s.(watchdog := None), Some(0), true); }
    }
  }

  // Whatever happens, a slave never holds more than one hover, one scroll and a
  // hundred real discrete commands.
  lemma {:induction false} EveryRunKeepsCapacity(s: Slave, evs: seq<Event>)
    requires WithinCapacity(s.buckets)
    ensures WithinCapacity(After(s, evs).buckets)
  {
    if evs != [] {
      EveryRunKeepsCapacity(s, evs[..|evs| - 1]);
      StepKeepsCapacity(After(s, evs[..|evs| - 1]), evs[|evs| - 1]);
    }
  }

  // ---------- Turns without effect ----------

  lemma {:induction false} RestIsShorter(s: Slave, c: Command)
    requires Peeked(s.buckets).Some?
    ensures Dequeued(AfterPurge(s, c)).Size() < s.buckets.Size()
  {
    FillersAreFewer(s.buckets.continuous + s.buckets.aggregated + Casualties(s.buckets.discrete));
    SplitSize(s.buckets.discrete);
    SelectedIsFirst(s.buckets, Critical);
    SelectedIsFirst(AfterPurge(s, c), Critical);
    if Selected(AfterPurge(s, c)).Some? {
      DequeueTakesOne(AfterPurge(s, c), 0);
    }
  }

  lemma {:induction false} FillersAreFewer(dropped: seq<Entry>)
    ensures |Fillers(dropped)| <= |dropped|
  {
    if dropped != [] { FillersAreFewer(dropped[1..]); }
  }

  lemma {:induction false} SplitSize(s: seq<Entry>)
    ensures |Survivors(s)| + |Casualties(s)| == |s|
  {
    if s != [] { SplitSize(s[1..]); }
  }

  // A turn of the loop changes nothing at all exactly when the page is gone and
  // the front is neither dropped nor expired; the loop then turns for ever.
  lemma {:induction false} TurnIsFutileIff(s: Slave, expired: bool)
    requires s.draining
    ensures Take(s, expired).0 == s <==>
      && Peeked(s.buckets).Some? && !s.hasPage && !expired
      && !(IsPressed(s) && IsDroppable(Peeked(s.buckets).value.queueClass))
    ensures Take(s, expired).0 == s <==> Take(s, expired).1 == Spins
  {
    if Peeked(s.buckets).Some? {
      var e := Peeked(s.buckets).value;
      RestIsShorter(s, e.command);
      DequeueTakesOne(s.buckets, 0);
      CountedFor(s.(buckets := Dequeued(s.buckets)), e.command.ges, false);
      CountedFor(s.(buckets := Dequeued(s.buckets)), e.command.ges, true);
      GatedMoves(s, e.command);
    }
  }

  lemma {:induction false} GatedMoves(s: Slave, c: Command)
    requires s.draining && Peeked(s.buckets).Some?
    ensures Gated(s, c).0 != s && Gated(s, c).1 != Spins
  {
    RestIsShorter(s, c);
    if Evaluate(s.currentGes, GateGes(c)) != Waiting {
      assert Gated(s, c).0.buckets == Dequeued(AfterPurge(s, c));
    }
  }

  // A slave in step whose loop finds nothing to do has done everything sent.
  lemma {:induction false} IdleMeansCaughtUp(s: Slave, n: nat, expired: bool)
    requires InStep(s, n) && s.draining && s.inFlight.None? && s.hasPage
    ensures Take(s, expired).1 == Idle <==> s.buckets.Size() == 0
    ensures s.buckets.Size() == 0 ==> s.currentGes == n
  {
    SelectedIsFirst(s.buckets, Critical);
    FrontIsNext(s, n);
    if Peeked(s.buckets).Some? {
      TakeUnfolds(s, expired, Peeked(s.buckets).value.command);
    }
  }

  // ---------- Waking ----------

  // Work waits only while the drain loop runs.
  predicate IsAwake(s: Slave) { s.draining || s.buckets.Size() == 0 }

  predicate IsSilenced(s: Slave, c: Command) { IsPressed(s) && IsDroppable(Classify(c)) }

  // An arrival leaves a sleeping slave with work to do exactly when pressure
  // turned the command into a stand-in: that path never starts the loop.
  lemma {:induction false} ArrivalWakesIff(s: Slave, c: Command)
    requires IsAwake(s)
    ensures IsAwake(Enqueued(s, c)) <==> s.draining || !IsSilenced(s, c)
  {
  }

  lemma {:induction false} EmptyStaysEmpty(b: Buckets)
    requires b.Size() == 0
    ensures Backpressured(b) == b && Purged(b) == b
  {
  }

  // In step, no other event puts the loop to sleep with work waiting.
  lemma {:induction false} StepStaysAwakeIff(s: Slave, n: nat, ev: Event)
    requires InStep(s, n) && IsAwake(s) && s.hasPage && Respects(s, n, ev)
    ensures IsAwake(Step(s, ev)) <==> !(ev.Sent? && !s.draining && IsSilenced(s, ev.command))
  {
    match ev {
      case Sent(c) => ArrivalWakesIff(s, c);
      case Turn(expired) =>
        if s.draining && s.inFlight.None? {
          TakeStaysInStepIff(s, n, expired);
        }
      case Ended(outcome) =>
      case GlobalPressure(active) => if s.buckets.Size() == 0 { EmptyStaysEmpty(s.buckets); }
      case OwnPressure(active) => if s.buckets.Size() == 0 { EmptyStaysEmpty(s.buckets); }
      case ScrollPurge => if s.buckets.Size() == 0 { EmptyStaysEmpty(s.buckets); }
      case WatchdogFires =>
    }
  }

  // At no point of the run does work wait with the loop asleep.
  ghost predicate AlwaysAwake(s: Slave, evs: seq<Event>) {
    IsAwake(After(s, evs)) && (evs != [] ==> AlwaysAwake(s, evs[..|evs| - 1]))
  }

  // No hover or scroll arrives under pressure while the loop sleeps.
  ghost predicate NeverSilencedAsleep(s: Slave, evs: seq<Event>) {
    evs != [] ==>
      var before, last := After(s, evs[..|evs| - 1]), evs[|evs| - 1];
      && NeverSilencedAsleep(s, evs[..|evs| - 1])
      && !(last.Sent? && !before.draining && IsSilenced(before, last.command))
  }

  // Over every run in step, work is never left waiting with the loop asleep,
  // exactly as long as no command is silenced while it sleeps.
  lemma {:induction false} EveryRunStaysAwakeIff(s: Slave, n: nat, evs: seq<Event>)
    requires InStep(s, n) && IsAwake(s) && s.hasPage && AllRespect(s, n, evs)
    ensures AlwaysAwake(s, evs) <==> NeverSilencedAsleep(s, evs)
    decreases |evs|
  {
    if evs != [] {
      var earlier, last := evs[..|evs| - 1], evs[|evs| - 1];
      EveryRunStaysInStep(s, n, earlier);
      EveryRunStaysAwakeIff(s, n, earlier);
      if AlwaysAwake(s, earlier) {
        StepStaysAwakeIff(After(s, earlier), SentBy(n, earlier), last);
      }
    }
  }

  // ---------- What an unsafe purge does ----------

  function Plainly(kind: string, ges: int): Entry {
    Entry(Command("Execution", kind, Some(Discrete), Some(ges), None, Some(NO_PAYLOAD)), Discrete)
  }

  const JUST_STARTED := Slave(EMPTY, 0, 0, false, None, true, false, false, true, None)

  // A navigation, an input and a click, sent in order: the purge puts the
  // input's stand-in behind the click.
  lemma {:induction false} UnsafePurgeMisplaces(d: seq<Entry>)
    requires d == [Plainly("navigate", 1), Plainly("INPUT", 2), Plainly("CLICK", 3)]
    ensures Navigated(EMPTY.(discrete := d)).discrete == [Plainly("navigate", 1), Plainly("CLICK", 3), Noop(Some(2))]
    ensures Peeked(EMPTY.(discrete := d)) == Some(d[0])
  {
    assert d[1..] == [Plainly("INPUT", 2), Plainly("CLICK", 3)];
    assert d[1..][1..] == [Plainly("CLICK", 3)];
    assert d[1..][1..][1..] == [];
    assert "INPUT"[0] != "CLICK"[0];
    assert !SurvivesNavigation(d[1]) && SurvivesNavigation(d[2]);
    assert Survivors(d[1..][1..]) == [Plainly("CLICK", 3)] && Casualties(d[1..][1..]) == [];
    assert Survivors(d[1..]) == [Plainly("CLICK", 3)];
    assert Casualties(d[1..]) == [Plainly("INPUT", 2)];
    assert Survivors(d) == [Plainly("navigate", 1), Plainly("CLICK", 3)];
    var dropped := [] + [] + Casualties(d);
    assert dropped == [Plainly("INPUT", 2)];
    assert Fillers(dropped[1..]) == [];
    assert Fillers(dropped) == [Noop(Some(2))];
  }

  // The gate then waits for a number that is in the queue.
  lemma {:induction false} UnsafePurgeBlocks(s: Slave, d: seq<Entry>)
    requires d == [Plainly("navigate", 1), Plainly("INPUT", 2), Plainly("CLICK", 3)]
    requires s == JUST_STARTED.(buckets := EMPTY.(discrete := d))
    ensures var flying := s.(buckets := Dequeued(Navigated(s.buckets)), inFlight := Some(d[0].command));
      var landed := Finished(flying, ReturnedTrue);
      && Take(s, false) == (flying, Dispatched)
      && landed.buckets.discrete == [Plainly("CLICK", 3), Noop(Some(2))]
      && landed.currentGes == 1
      && Take(landed, false).1 == Blocked
  {
    UnsafePurgeMisplaces(d);
    var purged := Navigated(s.buckets);
    assert purged == EMPTY.(discrete := [Plainly("navigate", 1), Plainly("CLICK", 3), Noop(Some(2))]);
    assert purged.discrete[1..] == [Plainly("CLICK", 3), Noop(Some(2))];
    assert Dequeued(purged) == EMPTY.(discrete := [Plainly("CLICK", 3), Noop(Some(2))]);
    FirstTurnFlies(s, Plainly("navigate", 1).command, Dequeued(purged));
    ClickBlocks(JUST_STARTED.(buckets := Dequeued(purged), currentGes := 1));
  }

  lemma {:induction false} FirstTurnFlies(s: Slave, c: Command, b: Buckets)
    requires s == JUST_STARTED.(buckets := s.buckets) && Peeked(s.buckets).Some?
    requires c == Plainly("navigate", 1).command && Peeked(s.buckets) == Some(Plainly("navigate", 1))
    requires b == Dequeued(Navigated(s.buckets))
    ensures Take(s, false) == (s.(buckets := b, inFlight := Some(c)), Dispatched)
  {
  }

  lemma {:induction false} ClickBlocks(s: Slave)
    requires s == JUST_STARTED.(buckets := EMPTY.(discrete := [Plainly("CLICK", 3), Noop(Some(2))]), currentGes := 1)
    ensures Take(s, false).1 == Blocked
  {
  }
}
