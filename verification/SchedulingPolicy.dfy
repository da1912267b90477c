// What the four queues do with the commands put into them, in plain terms:
// which command is kept, which one is next, and what becomes of the others.

module SchedulingPolicy {
  import opened Common
  import opened ExecutionQueue

  // ---------- The latest state wins ----------

  function InsertedEach(b: Buckets, cls: QueueClass, entries: seq<Entry>): Buckets {
    if entries == [] then b
    else Inserted(InsertedEach(b, cls, entries[..|entries| - 1]), cls, entries[|entries| - 1])
  }

  // A hover, or a scroll to an absolute position.
  predicate IsState(cls: QueueClass, e: Entry) {
    cls == Continuous || (cls == Aggregated && e.command.kind !in {"SCROLL", "wheel"})
  }

  // A no-operation for each numbered entry, in order.
  function StandIns(lost: seq<Entry>): seq<Entry> {
    if lost == [] then []
    else
      var last := lost[|lost| - 1];
      StandIns(lost[..|lost| - 1]) + if last.command.ges.Some? then [StandIn(last.command.ges.value)] else []
  }

  function StandIn(number: int): Entry {
    Entry(Command("Execution", "NOOP", None, Some(number), None, Some(NO_PAYLOAD)), Discrete)
  }

  lemma {:induction false} FillersAreStandIns(lost: seq<Entry>)
    ensures Fillers(lost) == StandIns(lost)
    decreases |lost|
  {
    if lost != [] {
      var n := |lost| - 1;
      FillersAreStandIns(lost[..n]);
      FillersOfLast(lost);
    }
  }

  lemma {:induction false} FillersOfLast(lost: seq<Entry>)
    requires lost != []
    ensures var last := lost[|lost| - 1];
      Fillers(lost) == Fillers(lost[..|lost| - 1]) + if last.command.ges.Some? then [Noop(last.command.ges)] else []
    decreases |lost|
  {
    if |lost| > 1 {
      FillersOfLast(lost[1..]);
      assert lost[1..][..|lost| - 2] == lost[..|lost| - 1][1..];
    }
  }

  lemma StandInsOfConcat(a: seq<Entry>, b: seq<Entry>)
    ensures StandIns(a + b) == StandIns(a) + StandIns(b)
    decreases |b|
  {
    if b == [] {
      assert a + b == a;
    } else {
      assert (a + b)[..|a + b| - 1] == a + b[..|b| - 1];
      StandInsOfConcat(a, b[..|b| - 1]);
    }
  }

  lemma FilledMeans(discrete: seq<Entry>, lost: seq<Entry>)
    ensures multiset(Filled(discrete, lost)) == multiset(discrete) + multiset(StandIns(lost))
    ensures StandIns(lost) == [] ==> Filled(discrete, lost) == discrete
    ensures StandIns(lost) != [] ==> Sorted(Filled(discrete, lost))
  {
    FillersAreStandIns(lost);
    SortSorts(discrete + Fillers(lost));
  }

  lemma StateReplaces(bucket: seq<Entry>, cls: QueueClass, e: Entry)
    requires |bucket| <= 1 && IsState(cls, e)
    ensures Applied(bucket, cls, e) == ([e], bucket)
  {
    if bucket != [] {
      assert bucket[0 := e] == [e] && [bucket[0]] == bucket;
    }
  }

  // The discrete queue after these were dropped, one by one.
  function FilledEach(discrete: seq<Entry>, lost: seq<Entry>): seq<Entry> {
    if lost == [] then discrete else Filled(FilledEach(discrete, lost[..|lost| - 1]), [lost[|lost| - 1]])
  }

  // It has gained a stand-in for each numbered one, and is sorted if there is any.
  lemma {:induction false} FilledEachMeans(discrete: seq<Entry>, lost: seq<Entry>)
    ensures multiset(FilledEach(discrete, lost)) == multiset(discrete) + multiset(StandIns(lost))
    ensures if StandIns(lost) == [] then FilledEach(discrete, lost) == discrete else Sorted(FilledEach(discrete, lost))
    decreases |lost|
  {
    if lost != [] {
      var n := |lost| - 1;
      FilledEachMeans(discrete, lost[..n]);
      FilledMeans(FilledEach(discrete, lost[..n]), [lost[n]]);
      StandInsOfConcat(lost[..n], [lost[n]]);
      assert lost == lost[..n] + [lost[n]];
    }
  }

  function WithState(b: Buckets, cls: QueueClass, e: Entry, discrete: seq<Entry>): Buckets {
    if cls == Continuous then b.(continuous := [e], discrete := discrete)
    else b.(aggregated := [e], discrete := discrete)
  }

  lemma {:induction false} OneStateWins(b: Buckets, cls: QueueClass, e: Entry)
    requires |b.Of(cls)| <= 1 && IsState(cls, e)
    ensures Inserted(b, cls, e) == WithState(b, cls, e, FilledEach(b.discrete, b.Of(cls)))
  {
    StateReplaces(b.Of(cls), cls, e);
    if b.Of(cls) != [] {
      assert b.Of(cls)[..0] == [] && [b.Of(cls)[0]] == b.Of(cls);
    }
  }

  lemma {:induction false} NextStateWins(
      b: Buckets, was: Buckets, cls: QueueClass, d: Entry, e: Entry, lost: seq<Entry>)
    requires IsState(cls, e)
    requires was == WithState(b, cls, d, FilledEach(b.discrete, lost))
    ensures Inserted(was, cls, e) == WithState(b, cls, e, FilledEach(b.discrete, lost + [d]))
  {
    OneStateWins(was, cls, e);
    assert was.Of(cls) == [d];
    assert (lost + [d])[..|lost|] == lost && [d][..0] == [];
    assert FilledEach(b.discrete, lost + [d]) == FilledEach(FilledEach(b.discrete, lost), [d]);
  }

  lemma InsertedOneMore(b: Buckets, cls: QueueClass, earlier: seq<Entry>, e: Entry)
    ensures InsertedEach(b, cls, earlier + [e]) == Inserted(InsertedEach(b, cls, earlier), cls, e)
    ensures InsertedEach(b, cls, []) == b
  {
    assert (earlier + [e])[..|earlier|] == earlier;
  }

  lemma {:induction false} StatesAreReplaced(
      b: Buckets, cls: QueueClass, held: seq<Entry>, earlier: seq<Entry>, e: Entry)
    requires held == b.Of(cls) && |held| <= 1 && IsState(cls, e) && forall d | d in earlier :: IsState(cls, d)
    ensures InsertedEach(b, cls, earlier + [e]) == WithState(b, cls, e, FilledEach(b.discrete, held + earlier))
    decreases |earlier|
  {
    InsertedOneMore(b, cls, earlier, e);
    if earlier == [] {
      OneStateWins(b, cls, e);
      assert held + earlier == held;
    } else {
      var n := |earlier| - 1;
      assert earlier == earlier[..n] + [earlier[n]];
      StatesAreReplaced(b, cls, held, earlier[..n], earlier[n]);
      OneMoreLost(held, earlier);
      NextStateWins(b, InsertedEach(b, cls, earlier), cls, earlier[n], e, held + earlier[..n]);
    }
  }

  lemma OneMoreLost(held: seq<Entry>, earlier: seq<Entry>)
    requires earlier != []
    ensures held + earlier == held + earlier[..|earlier| - 1] + [earlier[|earlier| - 1]]
  {
  }

  // Of any series of hovers, or of scrolls to a position, the queue holds exactly
  // the last; every earlier numbered one, and what the queue held, is a stand-in.
  lemma {:induction false} LatestStateWins(b: Buckets, cls: QueueClass, entries: seq<Entry>)
    requires |b.Of(cls)| <= 1 && entries != [] && forall e | e in entries :: IsState(cls, e)
    ensures var n, after := |entries| - 1, InsertedEach(b, cls, entries);
      var lost := b.Of(cls) + entries[..n];
      && after == WithState(b, cls, entries[n], after.discrete)
      && multiset(after.discrete) == multiset(b.discrete) + multiset(StandIns(lost))
      && if StandIns(lost) == [] then after.discrete == b.discrete else Sorted(after.discrete)
  {
    var n := |entries| - 1;
    assert entries == entries[..n] + [entries[n]];
    StatesAreReplaced(b, cls, b.Of(cls), entries[..n], entries[n]);
    FilledEachMeans(b.discrete, b.Of(cls) + entries[..n]);
  }

  // ---------- First in, first out ----------

  // Clicks, keys and recovery commands wait in the order they came.
  lemma {:induction false} OthersQueueUp(b: Buckets, cls: QueueClass, entries: seq<Entry>)
    requires cls == Critical || cls == Discrete
    ensures var after := InsertedEach(b, cls, entries);
      after.Of(cls) == b.Of(cls) + entries && forall other | other != cls :: after.Of(other) == b.Of(other)
    decreases |entries|
  {
    if entries == [] {
      assert b.Of(cls) + entries == b.Of(cls);
    } else {
      var n := |entries| - 1;
      OthersQueueUp(b, cls, entries[..n]);
      assert entries == entries[..n] + [entries[n]];
    }
  }

  // ---------- Sums of deltas ----------

  // The payload scrolls by these amounts.
  predicate ScrollsBy(p: Payload, x: real, y: real) {
    if p.deltas.Some? then p.deltas.value.x == x && p.deltas.value.y == y else p.deltaX == x && p.deltaY == y
  }

  function SumOf(xs: seq<real>): real { if xs == [] then 0.0 else SumOf(xs[..|xs| - 1]) + xs[|xs| - 1] }

  ghost predicate Burst(scrolls: seq<Entry>, xs: seq<real>, ys: seq<real>) {
    && |xs| == |ys| == |scrolls| > 0
    && forall i | 0 <= i < |scrolls| ::
         scrolls[i].command.kind in {"SCROLL", "wheel"} && ScrollsAt(scrolls[i], xs[i], ys[i])
  }

  predicate ScrollsAt(e: Entry, x: real, y: real) {
    e.command.payload.Some? && ScrollsBy(e.command.payload.value, x, y)
  }

  // A burst of scrolls by deltas becomes one scroll by the sums. It is the first
  // one's command, with the last one's other payload and metadata.
  lemma {:induction false} BurstScrollsBySums(b: Buckets, scrolls: seq<Entry>, xs: seq<real>, ys: seq<real>)
    requires b.aggregated == [] && Burst(scrolls, xs, ys)
    ensures var after := InsertedEach(b, Aggregated, scrolls);
      var first, last := scrolls[0].command, scrolls[|scrolls| - 1].command;
      && |after.aggregated| == 1 && ScrollsAt(after.aggregated[0], SumOf(xs), SumOf(ys))
      && var c := after.aggregated[0].command;
         && c.ges == first.ges && c.kind == first.kind && c.category == first.category
         && c.payload.value.rest == last.payload.value.rest && c.altGes == last.altGes
         && (|scrolls| > 1 ==> c.priority == None)
    decreases |scrolls|
  {
    var n := |scrolls| - 1;
    assert SumOf([]) == 0.0;
    if n == 0 {
      assert scrolls[..0] == [] && xs[..0] == [] && ys[..0] == [];
    } else {
      var was := InsertedEach(b, Aggregated, scrolls[..n]);
      assert forall i | 0 <= i < n :: ScrollsAt(scrolls[..n][i], xs[..n][i], ys[..n][i]);
      BurstScrollsBySums(b, scrolls[..n], xs[..n], ys[..n]);
      SumsAreCoalesced(was, scrolls[n], SumOf(xs[..n]), SumOf(ys[..n]), xs[n], ys[n]);
    }
  }

  lemma SumsAreCoalesced(b: Buckets, e: Entry, x: real, y: real, dx: real, dy: real)
    requires |b.aggregated| == 1 && ScrollsAt(b.aggregated[0], x, y)
    requires e.command.kind in {"SCROLL", "wheel"} && ScrollsAt(e, dx, dy)
    ensures var after := Inserted(b, Aggregated, e).aggregated;
      && |after| == 1 && ScrollsAt(after[0], x + dx, y + dy)
      && var c, was := after[0].command, b.aggregated[0].command;
         && c.ges == was.ges && c.kind == was.kind && c.category == was.category
         && c.payload.value.rest == e.command.payload.value.rest && c.altGes == e.command.altGes
         && c.priority == None
  {
  }

  // ---------- The full queue ----------

  lemma {:induction false} RealOnesCount(s: seq<Entry>)
    requires forall i | 0 <= i < |s| :: s[i].command.kind != "NOOP"
    ensures RealCount(s) == |s|
  {
    if s != [] { RealOnesCount(s[1..]); }
  }

  // A discrete queue of real commands refuses exactly when a hundred wait;
  // stand-ins take no room, and no other queue refuses.
  lemma {:induction false} RefusesAtAHundred(b: Buckets, cls: QueueClass, real_: seq<Entry>, numbers: seq<Entry>)
    requires forall i | 0 <= i < |real_| :: real_[i].command.kind != "NOOP"
    requires b.discrete == real_ + StandIns(numbers)
    ensures Overflows(b, cls) <==> cls == Discrete && |real_| >= 100
  {
    RealOnesCount(real_);
    FillersAreStandIns(numbers);
    FillersAreNoops(numbers);
    RealCountOfConcat(real_, StandIns(numbers));
  }

  // ---------- Which is next ----------

  // With an unnumbered head the next command is unnumbered, from the first such
  // queue; otherwise it carries the least number of all heads.
  lemma NextIsFirst(b: Buckets, cls: QueueClass)
    requires b.Of(cls) != []
    ensures Peeked(b).Some? && Selected(b).Some?
    ensures var next, head := Peeked(b).value.command.ges, b.Of(cls)[0].command.ges;
      && (head.None? ==> next.None? && ComesNoLater(Selected(b).value, cls))
      && (head.Some? && next.Some? ==> next.value <= head.value)
      && (head.Some? && next == head ==> ComesNoLater(Selected(b).value, cls))
  {
  }

  predicate ComesNoLater(a: QueueClass, b: QueueClass) {
    a == b || a == Critical || (a == Discrete && b != Critical) || (a == Aggregated && b == Continuous)
  }

  // The sorted queue has unnumbered commands before positive numbers, and the
  // numbers ascending.
  lemma {:induction false} SortedMeans(s: seq<Entry>, i: nat, j: nat)
    requires i < j < |SortByGes(s)|
    ensures var a, b := SortByGes(s)[i].command.ges, SortByGes(s)[j].command.ges;
      && (a.Some? && b.Some? ==> a.value <= b.value)
      && (a.Some? && b.None? ==> a.value <= 0)
  {
    SortSorts(s);
    assert Key(SortByGes(s)[i]) <= Key(SortByGes(s)[j]);
  }

  // ---------- Sweeping ----------

  // Under pressure the hover and scroll queues are emptied, a scroll purge
  // empties the scroll queue; what was numbered becomes a stand-in.
  lemma {:induction false} PressureSweeps(b: Buckets)
    ensures var after := Backpressured(b);
      && after.critical == b.critical && after.aggregated == after.continuous == []
      && multiset(after.discrete) == multiset(b.discrete) + multiset(StandIns(b.continuous + b.aggregated))
    ensures var after := Purged(b);
      && after.critical == b.critical && after.aggregated == [] && after.continuous == b.continuous
      && multiset(after.discrete) == multiset(b.discrete) + multiset(StandIns(b.aggregated))
  {
    FillersAreStandIns(b.continuous + b.aggregated);
    FillersAreStandIns(b.aggregated);
  }

  predicate Stays(e: Entry) { e.command.kind in {"navigate", "CLICK"} || e.command.category == "Navigation" }

  // A navigation purge keeps of the discrete queue exactly navigations and clicks,
  // in order, and puts the stand-ins of all the rest behind them, hover first,
  // then scroll, then commands.
  lemma {:induction false} NavigationSweeps(b: Buckets) returns (kept: seq<Entry>, lost: seq<Entry>)
    ensures IsSplit(b.discrete, kept, lost)
    ensures Navigated(b).critical == b.critical && Navigated(b).aggregated == Navigated(b).continuous == []
    ensures Navigated(b).discrete == kept + StandIns(b.continuous + b.aggregated + lost)
  {
    kept, lost := Survivors(b.discrete), Casualties(b.discrete);
    DiscreteIsSplit(b.discrete);
    FillersAreStandIns(b.continuous + b.aggregated + lost);
  }

  // `kept` are the entries that stay and `lost` the others, both in order.
  predicate IsSplit(s: seq<Entry>, kept: seq<Entry>, lost: seq<Entry>)
    decreases |s|
  {
    if s == [] then kept == [] && lost == []
    else if Stays(s[0]) then kept != [] && kept[0] == s[0] && IsSplit(s[1..], kept[1..], lost)
    else lost != [] && lost[0] == s[0] && IsSplit(s[1..], kept, lost[1..])
  }

  lemma {:induction false} DiscreteIsSplit(s: seq<Entry>)
    ensures IsSplit(s, Survivors(s), Casualties(s))
  {
    if s != [] { DiscreteIsSplit(s[1..]); }
  }

  // ---------- Classes ----------

  const HOVERS := {"hover", "mousemove", "pointermove"}
  const SCROLLS := {"scroll", "wheel", "window_scroll", "element_scroll"}

  // A known priority decides; then the category; then the type, in whatever case
  // it is written. Everything else is a discrete command.
  lemma ClassMeans(c: Command, lower: string)
    requires lower == Lower(c.kind)
    ensures c.kind != "" && c.priority.Some? ==> Classify(c) == c.priority.value
    ensures c.kind != "" && c.priority.None? && c.category in {"Recovery", "Navigation"} ==> Classify(c) == Critical
    ensures c.kind != "" && c.priority.None? && c.category !in {"Recovery", "Navigation"} ==>
      && (Classify(c) == Continuous <==> lower in HOVERS)
      && (Classify(c) == Aggregated <==> lower in SCROLLS)
      && Classify(c) != Critical
    ensures c.kind == "" ==> Classify(c) == Discrete
  {
  }

  lemma LowerIgnoresCase()
    ensures Lower("WHEEL") == "wheel" && Lower("Hover") == "hover" && Lower("window_SCROLL") == "window_scroll"
  {
  }
}
