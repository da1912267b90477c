// One slave's four command queues: classification, coalescing, and the NOOP
// entries that stand in for every sequence number a dropped command carried.

module ExecutionQueue {
  import opened Common

  datatype QueueClass = Critical | Discrete | Aggregated | Continuous

  datatype Delta = Delta(x: real, y: real)

  // `deltaX` and `deltaY` are zero when the payload has none.
  datatype Payload = Payload(deltas: Option<Delta>, deltaX: real, deltaY: real, rest: string)

  // `ges` is the command's own sequence number; `altGes` is the one found in
  // its metadata or payload. `priority` is None for any unknown priority.
  datatype Command = Command(
    category: string,
    kind: string,
    priority: Option<QueueClass>,
    ges: Option<int>,
    altGes: Option<int>,
    payload: Option<Payload>)

  datatype Entry = Entry(command: Command, queueClass: QueueClass)

  const NO_PAYLOAD := Payload(None, 0.0, 0.0, "")

  function Noop(ges: Option<int>): Entry {
    Entry(Command("Execution", "NOOP", None, ges, None, Some(NO_PAYLOAD)), Discrete)
  }

  // ---------- Classification ----------

  function LowerChar(c: char): char {
    if 'A' <= c <= 'Z' then c - 'A' + 'a' else c
  }

  function Lower(s: string): string {
    seq(|s|, i requires 0 <= i < |s| => LowerChar(s[i]))
  }

  predicate IsHover(lower: string) { lower in ["hover", "mousemove", "pointermove"] }

  predicate IsScroll(lower: string) { lower in ["scroll", "wheel", "window_scroll", "element_scroll"] }

  // A known priority is honoured; otherwise the type decides.
  function Classify(c: Command): QueueClass {
    if c.kind == "" then Discrete
    else if c.priority.Some? then c.priority.value
    else if c.category == "Recovery" || c.category == "Navigation" then Critical
    else if IsHover(Lower(c.kind)) then Continuous
    else if IsScroll(Lower(c.kind)) then Aggregated
    else Discrete
  }

  // The priority the master's dispatcher gives a sequenced event.
  function SequencedPriority(kind: string): QueueClass {
    if IsHover(Lower(kind)) then Continuous
    else if Lower(kind) in ["scroll", "wheel"] then Aggregated
    else Discrete
  }

  predicate IsNavigation(c: Command) { c.kind == "navigate" || c.category == "Navigation" }

  // What survives a navigation purge of the discrete queue.
  predicate SurvivesNavigation(e: Entry) { IsNavigation(e.command) || e.command.kind == "CLICK" }

  // ---------- Sorting by sequence number ----------

  function Key(e: Entry): int { if e.command.ges.Some? then e.command.ges.value else 0 }

  function InsertByKey(e: Entry, s: seq<Entry>): (r: seq<Entry>)
    ensures multiset(r) == multiset{e} + multiset(s)
  {
    if s == [] || Key(e) <= Key(s[0]) then [e] + s
    else
      assert s == [s[0]] + s[1..];
      [s[0]] + InsertByKey(e, s[1..])
  }

  // The stable sort of the discrete queue; entries without a number go first.
  function SortByGes(s: seq<Entry>): (r: seq<Entry>)
    ensures multiset(r) == multiset(s)
  {
    if s == [] then []
    else
      assert s == [s[0]] + s[1..];
      InsertByKey(s[0], SortByGes(s[1..]))
  }

  ghost predicate Sorted(s: seq<Entry>) {
    forall i, j | 0 <= i < j < |s| :: Key(s[i]) <= Key(s[j])
  }

  lemma {:induction false} InsertKeepsSorted(e: Entry, s: seq<Entry>)
    requires Sorted(s)
    ensures Sorted(InsertByKey(e, s))
    decreases |s|
  {
    if s != [] && Key(e) > Key(s[0]) {
      InsertKeepsSorted(e, s[1..]);
      var r := InsertByKey(e, s[1..]);
      forall i | 0 <= i < |r| ensures Key(s[0]) <= Key(r[i]) {
        assert r[i] in multiset(r);
      }
    }
  }

  lemma {:induction false} SortSorts(s: seq<Entry>)
    ensures Sorted(SortByGes(s))
  {
    if s != [] {
      SortSorts(s[1..]);
      InsertKeepsSorted(s[0], SortByGes(s[1..]));
    }
  }

  // The entries with one sorting key, in order.
  function WithKey(s: seq<Entry>, key: int): seq<Entry> {
    if s == [] then [] else (if Key(s[0]) == key then [s[0]] else []) + WithKey(s[1..], key)
  }

  lemma WithKeyOfCons(e: Entry, s: seq<Entry>, key: int)
    ensures WithKey([e] + s, key) == (if Key(e) == key then [e] else []) + WithKey(s, key)
  {
    assert ([e] + s)[1..] == s;
  }

  lemma {:induction false} InsertIsStable(e: Entry, s: seq<Entry>, key: int)
    ensures WithKey(InsertByKey(e, s), key) == (if Key(e) == key then [e] else []) + WithKey(s, key)
    decreases |s|
  {
    if s == [] || Key(e) <= Key(s[0]) {
      WithKeyOfCons(e, s, key);
    } else {
      InsertIsStable(e, s[1..], key);
      WithKeyOfCons(s[0], InsertByKey(e, s[1..]), key);
      WithKeyOfCons(s[0], s[1..], key);
      assert s == [s[0]] + s[1..];
    }
  }

  // The sort is stable: entries with the same key keep their order.
  lemma {:induction false} SortIsStable(s: seq<Entry>, key: int)
    ensures WithKey(SortByGes(s), key) == WithKey(s, key)
  {
    if s != [] {
      SortIsStable(s[1..], key);
      InsertIsStable(s[0], SortByGes(s[1..]), key);
    }
  }

  // ---------- Sequence numbers held by a queue ----------

  function One(o: Option<int>, g: int): nat { if o == Some(g) then 1 else 0 }

  // How many entries carry the number `g`.
  function Count(s: seq<Entry>, g: int): nat {
    if s == [] then 0 else One(s[0].command.ges, g) + Count(s[1..], g)
  }

  lemma {:induction false} CountOfConcat(a: seq<Entry>, b: seq<Entry>, g: int)
    ensures Count(a + b, g) == Count(a, g) + Count(b, g)
    decreases |a|
  {
    if a == [] {
      assert a + b == b;
    } else {
      assert (a + b)[1..] == a[1..] + b;
      CountOfConcat(a[1..], b, g);
    }
  }

  lemma {:induction false} CountOfCons(e: Entry, s: seq<Entry>, g: int)
    ensures Count([e] + s, g) == One(e.command.ges, g) + Count(s, g)
  {
  }

  lemma {:induction false} CountOfOne(e: Entry, g: int)
    ensures Count([e], g) == One(e.command.ges, g)
  {
  }

  lemma {:induction false} CountOfInsert(e: Entry, s: seq<Entry>, g: int)
    ensures Count(InsertByKey(e, s), g) == One(e.command.ges, g) + Count(s, g)
    decreases |s|
  {
    if s == [] || Key(e) <= Key(s[0]) {
      CountOfCons(e, s, g);
    } else {
      CountOfInsert(e, s[1..], g);
      CountOfCons(s[0], InsertByKey(e, s[1..]), g);
    }
  }

  lemma {:induction false} CountOfSort(s: seq<Entry>, g: int)
    ensures Count(SortByGes(s), g) == Count(s, g)
  {
    if s != [] {
      CountOfSort(s[1..], g);
      CountOfInsert(s[0], SortByGes(s[1..]), g);
    }
  }

  lemma {:induction false} CountHas(s: seq<Entry>, i: nat)
    requires i < |s| && s[i].command.ges.Some?
    ensures Count(s, s[i].command.ges.value) >= 1
    decreases |s|
  {
    if i > 0 { CountHas(s[1..], i - 1); }
  }

  lemma {:induction false} CountTwice(s: seq<Entry>, i: nat, j: nat)
    requires i < j < |s| && s[i].command.ges.Some? && s[i].command.ges == s[j].command.ges
    ensures Count(s, s[i].command.ges.value) >= 2
    decreases |s|
  {
    if i > 0 {
      CountTwice(s[1..], i - 1, j - 1);
    } else {
      CountHas(s[1..], j - 1);
    }
  }

  lemma {:induction false} CountIsHeld(s: seq<Entry>, g: int) returns (i: nat)
    requires Count(s, g) >= 1
    ensures i < |s| && s[i].command.ges == Some(g)
    decreases |s|
  {
    if s[0].command.ges == Some(g) {
      i := 0;
    } else {
      var k := CountIsHeld(s[1..], g);
      i := k + 1;
    }
  }

  // ---------- The stand-ins ----------

  // A NOOP for every dropped entry that carried a number.
  function Fillers(dropped: seq<Entry>): seq<Entry> {
    if dropped == [] then []
    else if dropped[0].command.ges.None? then Fillers(dropped[1..])
    else [Noop(dropped[0].command.ges)] + Fillers(dropped[1..])
  }

  lemma {:induction false} FillersKeepCount(dropped: seq<Entry>, g: int)
    ensures Count(Fillers(dropped), g) == Count(dropped, g)
  {
    if dropped != [] {
      FillersKeepCount(dropped[1..], g);
      CountOfCons(Noop(dropped[0].command.ges), Fillers(dropped[1..]), g);
    }
  }

  // The discrete queue after fillers join it: re-sorted only if there are any.
  function Filled(discrete: seq<Entry>, dropped: seq<Entry>): seq<Entry> {
    var fillers := Fillers(dropped);
    if fillers == [] then discrete else SortByGes(discrete + fillers)
  }

  lemma {:induction false} FilledKeepsCount(discrete: seq<Entry>, dropped: seq<Entry>, g: int)
    ensures Count(Filled(discrete, dropped), g) == Count(discrete, g) + Count(dropped, g)
  {
    var fillers := Fillers(dropped);
    FillersKeepCount(dropped, g);
    CountOfConcat(discrete, fillers, g);
    CountOfSort(discrete + fillers, g);
  }

  // ---------- Buckets ----------

  datatype Buckets = Buckets(
    critical: seq<Entry>,
    discrete: seq<Entry>,
    aggregated: seq<Entry>,
    continuous: seq<Entry>)
  {
    function Of(cls: QueueClass): seq<Entry> {
      match cls
      case Critical => critical
      case Discrete => discrete
      case Aggregated => aggregated
      case Continuous => continuous
    }

    function With(cls: QueueClass, s: seq<Entry>): Buckets {
      match cls
      case Critical => this.(critical := s)
      case Discrete => this.(discrete := s)
      case Aggregated => this.(aggregated := s)
      case Continuous => this.(continuous := s)
    }

    function Size(): nat { |critical| + |discrete| + |aggregated| + |continuous| }

    // How often a sequence number waits in the four queues.
    function Holds(g: int): nat {
      Count(critical, g) + Count(discrete, g) + Count(aggregated, g) + Count(continuous, g)
    }
  }

  const EMPTY := Buckets([], [], [], [])

  const DISCRETE_LIMIT := 100

  function RealCount(s: seq<Entry>): nat {
    if s == [] then 0 else (if s[0].command.kind != "NOOP" then 1 else 0) + RealCount(s[1..])
  }

  predicate Overflows(b: Buckets, cls: QueueClass) {
    cls == Discrete && RealCount(b.discrete) >= DISCRETE_LIMIT
  }

  predicate IsDeltaScroll(c: Command) { c.kind == "SCROLL" || c.kind == "wheel" }

  function DeltaOf(p: Payload): Delta {
    if p.deltas.Some? then p.deltas.value else Delta(p.deltaX, p.deltaY)
  }

  // The pending scroll takes over the new one's payload and metadata, sums the
  // deltas, and keeps its own type and sequence number.
  function Coalesced(pending: Entry, e: Entry): Entry
    requires pending.command.payload.Some? && e.command.payload.Some?
  {
    var a, b := DeltaOf(pending.command.payload.value), DeltaOf(e.command.payload.value);
    pending.(command := pending.command.(
      priority := None,
      altGes := e.command.altGes,
      payload := Some(e.command.payload.value.(deltas := Some(Delta(a.x + b.x, a.y + b.y))))))
  }

  // A delta scroll that meets a pending one, where either has no payload, is
  // neither kept nor replaced by a stand-in.
  predicate Vanishes(b: Buckets, cls: QueueClass, e: Entry) {
    && cls == Aggregated && b.aggregated != [] && IsDeltaScroll(e.command)
    && (b.aggregated[0].command.payload.None? || e.command.payload.None?)
  }

  // The scheduling policy: the bucket after the entry, and what was dropped.
  function Applied(bucket: seq<Entry>, cls: QueueClass, e: Entry): (seq<Entry>, seq<Entry>) {
    match cls
    case Critical => (bucket + [e], [])
    case Discrete => (bucket + [e], [])
    case Continuous => if bucket == [] then ([e], []) else (bucket[0 := e], [bucket[0]])
    case Aggregated =>
      if bucket == [] then ([e], [])
      else if IsDeltaScroll(e.command) then
        if bucket[0].command.payload.Some? && e.command.payload.Some?
        then (bucket[0 := Coalesced(bucket[0], e)], [e])
        else (bucket, [])
      else (bucket[0 := e], [bucket[0]])
  }

  function Inserted(b: Buckets, cls: QueueClass, e: Entry): Buckets {
    var (bucket, dropped) := Applied(b.Of(cls), cls, e);
    var b' := b.With(cls, bucket);
    b'.(discrete := Filled(b'.discrete, dropped))
  }

  // Both buckets below hold at most one entry.
  predicate IsSlim(b: Buckets) { |b.aggregated| <= 1 && |b.continuous| <= 1 }

  lemma {:induction false} HoldsWith(b: Buckets, cls: QueueClass, s: seq<Entry>, g: int)
    ensures b.With(cls, s).Holds(g) == b.Holds(g) - Count(b.Of(cls), g) + Count(s, g)
  {
  }

  lemma {:induction false} AppliedConserves(b: Buckets, cls: QueueClass, e: Entry, g: int)
    requires IsSlim(b)
    ensures var (bucket, dropped) := Applied(b.Of(cls), cls, e);
      Count(bucket, g) + Count(dropped, g) ==
      Count(b.Of(cls), g) + if Vanishes(b, cls, e) then 0 else One(e.command.ges, g)
  {
    var was := b.Of(cls);
    CountOfOne(e, g);
    if cls == Critical || cls == Discrete {
      CountOfConcat(was, [e], g);
    } else if was != [] {
      assert was == [was[0]];
      CountOfOne(was[0], g);
      assert was[0 := e] == [e];
      if cls == Aggregated && IsDeltaScroll(e.command) && !Vanishes(b, cls, e) {
        var merged := Coalesced(was[0], e);
        assert was[0 := merged] == [merged];
        CountOfOne(merged, g);
      }
    }
  }

  // Inserting a command adds its number and loses none, unless the command is a
  // scroll that vanishes.
  lemma {:induction false} InsertConserves(b: Buckets, cls: QueueClass, e: Entry, g: int)
    requires IsSlim(b)
    ensures Inserted(b, cls, e).Holds(g) == b.Holds(g) + if Vanishes(b, cls, e) then 0 else One(e.command.ges, g)
  {
    var (bucket, dropped) := Applied(b.Of(cls), cls, e);
    var b' := b.With(cls, bucket);
    AppliedConserves(b, cls, e, g);
    HoldsWith(b, cls, bucket, g);
    FilledKeepsCount(b'.discrete, dropped, g);
    HoldsWith(b', Discrete, Filled(b'.discrete, dropped), g);
  }

  // The numbers are conserved exactly when the command carries none or does not vanish.
  lemma {:induction false} ConservationIsExact(b: Buckets, cls: QueueClass, e: Entry)
    requires IsSlim(b)
    ensures (forall g :: Inserted(b, cls, e).Holds(g) == b.Holds(g) + One(e.command.ges, g))
            <==> !Vanishes(b, cls, e) || e.command.ges.None?
  {
    forall g ensures
      Inserted(b, cls, e).Holds(g) == b.Holds(g) + if Vanishes(b, cls, e) then 0 else One(e.command.ges, g)
    {
      InsertConserves(b, cls, e, g);
    }
    if e.command.ges.Some? {
      assert One(e.command.ges, e.command.ges.value) == 1;
    }
  }

  // The pending scroll has a payload, as every sequenced command has.
  predicate ScrollHasPayload(b: Buckets) { b.aggregated != [] ==> b.aggregated[0].command.payload.Some? }

  // As long as all commands have payloads, every insertion conserves the numbers.
  lemma {:induction false} PayloadsConserve(b: Buckets, cls: QueueClass, e: Entry, g: int)
    requires IsSlim(b) && ScrollHasPayload(b) && e.command.payload.Some?
    ensures Inserted(b, cls, e).Holds(g) == b.Holds(g) + One(e.command.ges, g)
    ensures ScrollHasPayload(Inserted(b, cls, e))
  {
    InsertConserves(b, cls, e, g);
  }

  // ---------- Taking the next entry ----------

  function Rank(cls: QueueClass): nat {
    match cls
    case Critical => 0
    case Discrete => 1
    case Aggregated => 2
    case Continuous => 3
  }

  // The order between two queue heads: entries without a number first, then by number.
  predicate GoesBefore(a: Option<int>, b: Option<int>) {
    (a.None? && b.Some?) || (a.Some? && b.Some? && a.value < b.value)
  }

  function HeadGes(b: Buckets, cls: QueueClass): Option<int>
    requires b.Of(cls) != []
  {
    b.Of(cls)[0].command.ges
  }

  function Better(b: Buckets, best: Option<QueueClass>, cls: QueueClass): (r: Option<QueueClass>)
    requires best.Some? ==> b.Of(best.value) != []
    ensures r.Some? ==> b.Of(r.value) != []
  {
    if b.Of(cls) == [] then best
    else if best.None? || GoesBefore(HeadGes(b, cls), HeadGes(b, best.value)) then Some(cls)
    else best
  }

  // The queue whose head is taken next; ties go to the earlier queue.
  function Selected(b: Buckets): (r: Option<QueueClass>)
    ensures r.Some? ==> b.Of(r.value) != []
  {
    Better(b, Better(b, Better(b, Better(b, None, Critical), Discrete), Aggregated), Continuous)
  }

  function Peeked(b: Buckets): Option<Entry> {
    if Selected(b).Some? then Some(b.Of(Selected(b).value)[0]) else None
  }

  function Dequeued(b: Buckets): Buckets {
    match Selected(b)
    case None => b
    case Some(cls) => b.With(cls, b.Of(cls)[1..])
  }

  // No queue head goes before the selected one, the selected one goes before
  // the heads of all earlier queues, and nothing is selected only when nothing waits.
  lemma SelectedIsFirst(b: Buckets, cls: QueueClass)
    ensures Selected(b).None? <==> b.Size() == 0
    ensures b.Of(cls) != [] ==> Selected(b).Some? && !GoesBefore(HeadGes(b, cls), HeadGes(b, Selected(b).value))
    ensures b.Of(cls) != [] && Rank(cls) < Rank(Selected(b).value) ==>
      GoesBefore(HeadGes(b, Selected(b).value), HeadGes(b, cls))
  {
  }

  lemma {:induction false} DequeueTakesOne(b: Buckets, g: int)
    requires Selected(b).Some?
    ensures b.Holds(g) == Dequeued(b).Holds(g) + One(Peeked(b).value.command.ges, g)
    ensures Dequeued(b).Size() == b.Size() - 1
  {
  }

  // ---------- Purges ----------

  function Backpressured(b: Buckets): Buckets {
    Buckets(b.critical, Filled(b.discrete, b.continuous + b.aggregated), [], [])
  }

  function Purged(b: Buckets): Buckets {
    b.(discrete := Filled(b.discrete, b.aggregated), aggregated := [])
  }

  function Survivors(s: seq<Entry>): seq<Entry> {
    if s == [] then []
    else if SurvivesNavigation(s[0]) then [s[0]] + Survivors(s[1..])
    else Survivors(s[1..])
  }

  function Casualties(s: seq<Entry>): seq<Entry> {
    if s == [] then []
    else if SurvivesNavigation(s[0]) then Casualties(s[1..])
    else [s[0]] + Casualties(s[1..])
  }

  // A navigation purge appends its fillers and does not sort.
  function Navigated(b: Buckets): Buckets {
    Buckets(b.critical, Survivors(b.discrete) + Fillers(b.continuous + b.aggregated + Casualties(b.discrete)), [], [])
  }

  lemma {:induction false} SplitKeepsCount(s: seq<Entry>, g: int)
    ensures Count(Survivors(s), g) + Count(Casualties(s), g) == Count(s, g)
  {
    if s != [] {
      SplitKeepsCount(s[1..], g);
      CountOfCons(s[0], Survivors(s[1..]), g);
      CountOfCons(s[0], Casualties(s[1..]), g);
    }
  }

  // No purge loses, adds or repeats a number.
  lemma {:induction false} PurgesConserve(b: Buckets, g: int)
    ensures Backpressured(b).Holds(g) == b.Holds(g)
    ensures Purged(b).Holds(g) == b.Holds(g)
    ensures Navigated(b).Holds(g) == b.Holds(g)
  {
    CountOfConcat(b.continuous, b.aggregated, g);
    FilledKeepsCount(b.discrete, b.continuous + b.aggregated, g);
    FilledKeepsCount(b.discrete, b.aggregated, g);
    var dropped := b.continuous + b.aggregated + Casualties(b.discrete);
    CountOfConcat(b.continuous + b.aggregated, Casualties(b.discrete), g);
    FillersKeepCount(dropped, g);
    CountOfConcat(Survivors(b.discrete), Fillers(dropped), g);
    SplitKeepsCount(b.discrete, g);
  }

  // ---------- Capacity ----------

  lemma {:induction false} RealCountOfConcat(a: seq<Entry>, b: seq<Entry>)
    ensures RealCount(a + b) == RealCount(a) + RealCount(b)
    decreases |a|
  {
    if a == [] {
      assert a + b == b;
    } else {
      assert (a + b)[1..] == a[1..] + b;
      RealCountOfConcat(a[1..], b);
    }
  }

  lemma {:induction false} RealCountOfInsert(e: Entry, s: seq<Entry>)
    ensures RealCount(InsertByKey(e, s)) == RealCount([e]) + RealCount(s)
    decreases |s|
  {
    if s == [] || Key(e) <= Key(s[0]) {
      RealCountOfConcat([e], s);
    } else {
      RealCountOfInsert(e, s[1..]);
      assert InsertByKey(e, s)[1..] == InsertByKey(e, s[1..]);
    }
  }

  lemma {:induction false} RealCountOfSort(s: seq<Entry>)
    ensures RealCount(SortByGes(s)) == RealCount(s)
  {
    if s != [] {
      RealCountOfSort(s[1..]);
      RealCountOfInsert(s[0], SortByGes(s[1..]));
      RealCountOfConcat([s[0]], s[1..]);
      assert s == [s[0]] + s[1..];
    }
  }

  lemma {:induction false} FillersAreNoops(dropped: seq<Entry>)
    ensures RealCount(Fillers(dropped)) == 0
  {
    if dropped != [] {
      FillersAreNoops(dropped[1..]);
      if dropped[0].command.ges.Some? {
        assert Fillers(dropped)[1..] == Fillers(dropped[1..]);
      }
    }
  }

  lemma {:induction false} FilledKeepsRealCount(discrete: seq<Entry>, dropped: seq<Entry>)
    ensures RealCount(Filled(discrete, dropped)) == RealCount(discrete)
  {
    FillersAreNoops(dropped);
    RealCountOfConcat(discrete, Fillers(dropped));
    RealCountOfSort(discrete + Fillers(dropped));
  }

  lemma {:induction false} SurvivorsAreFewer(s: seq<Entry>)
    ensures RealCount(Survivors(s)) <= RealCount(s)
  {
    if s != [] {
      SurvivorsAreFewer(s[1..]);
      if SurvivesNavigation(s[0]) {
        assert Survivors(s)[1..] == Survivors(s[1..]);
      } else {
        assert Survivors(s) == Survivors(s[1..]);
      }
    }
  }

  // No operation lets the scroll and hover queues grow past one entry or the
  // discrete queue past a hundred real commands.
  predicate WithinCapacity(b: Buckets) { IsSlim(b) && RealCount(b.discrete) <= DISCRETE_LIMIT }

  lemma {:induction false} InsertKeepsCapacity(b: Buckets, cls: QueueClass, e: Entry)
    requires WithinCapacity(b) && !Overflows(b, cls)
    ensures WithinCapacity(Inserted(b, cls, e))
  {
    var (bucket, dropped) := Applied(b.Of(cls), cls, e);
    FilledKeepsRealCount(b.With(cls, bucket).discrete, dropped);
    RealCountOfConcat(b.discrete, [e]);
  }

  // A command turned into a stand-in joins the discrete queue past its limit.
  lemma {:induction false} StandInKeepsCapacity(b: Buckets, ges: Option<int>)
    requires WithinCapacity(b)
    ensures WithinCapacity(b.(discrete := SortByGes(b.discrete + [Noop(ges)])))
  {
    RealCountOfSort(b.discrete + [Noop(ges)]);
    RealCountOfConcat(b.discrete, [Noop(ges)]);
    assert RealCount([Noop(ges)]) == 0;
  }

  lemma {:induction false} NavigationKeepsCapacity(b: Buckets)
    requires WithinCapacity(b)
    ensures WithinCapacity(Navigated(b))
  {
    SurvivorsAreFewer(b.discrete);
    var dropped := b.continuous + b.aggregated + Casualties(b.discrete);
    FillersAreNoops(dropped);
    RealCountOfConcat(Survivors(b.discrete), Fillers(dropped));
  }

  lemma {:induction false} ShrinkingKeepsCapacity(b: Buckets)
    requires WithinCapacity(b)
    ensures WithinCapacity(Dequeued(b)) && WithinCapacity(Backpressured(b)) && WithinCapacity(Purged(b))
  {
    FilledKeepsRealCount(b.discrete, b.continuous + b.aggregated);
    FilledKeepsRealCount(b.discrete, b.aggregated);
  }

  // ---------- Coalescing sums deltas ----------

  function InsertedAll(b: Buckets, scrolls: seq<Entry>): Buckets {
    if scrolls == [] then b else Inserted(InsertedAll(b, scrolls[..|scrolls| - 1]), Aggregated, scrolls[|scrolls| - 1])
  }

  function TotalDelta(scrolls: seq<Entry>): Delta
    requires forall i | 0 <= i < |scrolls| :: scrolls[i].command.payload.Some?
  {
    if scrolls == [] then Delta(0.0, 0.0)
    else
      var a := TotalDelta(scrolls[..|scrolls| - 1]);
      var b := DeltaOf(scrolls[|scrolls| - 1].command.payload.value);
      Delta(a.x + b.x, a.y + b.y)
  }

  ghost predicate AllDeltaScrolls(scrolls: seq<Entry>) {
    forall i | 0 <= i < |scrolls| :: scrolls[i].command.payload.Some? && IsDeltaScroll(scrolls[i].command)
  }

  // A burst of delta scrolls leaves one entry: the first one's number, the sum
  // of all deltas; the other numbers wait as stand-ins.
  lemma {:induction false} BurstIsSummed(b: Buckets, scrolls: seq<Entry>)
    requires b.aggregated == [] && |b.continuous| <= 1 && scrolls != [] && AllDeltaScrolls(scrolls)
    ensures var after := InsertedAll(b, scrolls);
      && |after.aggregated| == 1
      && after.aggregated[0].command.ges == scrolls[0].command.ges
      && after.aggregated[0].command.payload.Some?
      && DeltaOf(after.aggregated[0].command.payload.value) == TotalDelta(scrolls)
      && after.continuous == b.continuous && after.critical == b.critical
    decreases |scrolls|
  {
    var n := |scrolls| - 1;
    var earlier := scrolls[..n];
    if n == 0 {
      assert earlier == [];
    } else {
      BurstIsSummed(b, earlier);
    }
  }

  lemma {:induction false} BurstIsSlim(b: Buckets, scrolls: seq<Entry>)
    requires b.aggregated == [] && |b.continuous| <= 1 && AllDeltaScrolls(scrolls)
    ensures IsSlim(InsertedAll(b, scrolls))
    ensures InsertedAll(b, scrolls).aggregated != [] ==> InsertedAll(b, scrolls).aggregated[0].command.payload.Some?
  {
    if scrolls != [] {
      BurstIsSummed(b, scrolls);
    }
  }

  lemma {:induction false} OneMoreScroll(b: Buckets, e: Entry, g: int)
    requires IsSlim(b) && e.command.payload.Some?
    requires b.aggregated != [] ==> b.aggregated[0].command.payload.Some?
    ensures Inserted(b, Aggregated, e).Holds(g) == b.Holds(g) + One(e.command.ges, g)
  {
    InsertConserves(b, Aggregated, e, g);
  }

  lemma {:induction false} CountOfLast(s: seq<Entry>, g: int)
    requires s != []
    ensures Count(s, g) == Count(s[..|s| - 1], g) + One(s[|s| - 1].command.ges, g)
  {
    assert s == s[..|s| - 1] + [s[|s| - 1]];
    CountOfConcat(s[..|s| - 1], [s[|s| - 1]], g);
    CountOfOne(s[|s| - 1], g);
  }

  // ... and no number of the burst is lost.
  lemma {:induction false} BurstConserves(b: Buckets, scrolls: seq<Entry>, g: int)
    requires b.aggregated == [] && |b.continuous| <= 1 && AllDeltaScrolls(scrolls)
    ensures InsertedAll(b, scrolls).Holds(g) == b.Holds(g) + Count(scrolls, g)
    decreases |scrolls|
  {
    if scrolls != [] {
      var n := |scrolls| - 1;
      var earlier, last := scrolls[..n], scrolls[n];
      BurstConserves(b, earlier, g);
      BurstIsSlim(b, earlier);
      OneMoreScroll(InsertedAll(b, earlier), last, g);
      CountOfLast(scrolls, g);
    }
  }
}
