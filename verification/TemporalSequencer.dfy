// The master's temporal sequencer: captured events wait in a binary min-heap
// ordered by hybrid logical clock, and leave it numbered 1, 2, 3, ...

module HybridClock {
  import opened Common

  // Physical time in microseconds (the source truncates to microseconds), and
  // a counter that separates stamps taken within one microsecond.
  datatype Hlc = Hlc(physical: int, logical: int)

  function Compare(a: Hlc, b: Hlc): int {
    if a.physical == b.physical then a.logical - b.logical else a.physical - b.physical
  }

  predicate Before(a: Hlc, b: Hlc) { Compare(a, b) < 0 }

  predicate AtMost(a: Hlc, b: Hlc) { Compare(a, b) <= 0 }

  // The stamp taken when the physical clock reads `physical`.
  function Generate(physical: int, last: Option<Hlc>): Hlc {
    match last
    case None => Hlc(physical, 0)
    case Some(h) =>
      if physical == h.physical then Hlc(physical, h.logical + 1)
      else if physical < h.physical then Hlc(h.physical, h.logical + 1)
      else Hlc(physical, 0)
  }

  // The stamps one page takes for a series of clock readings.
  function Stamps(readings: seq<int>): (stamps: seq<Hlc>)
    ensures |stamps| == |readings|
  {
    if readings == [] then []
    else
      var earlier := Stamps(readings[..|readings| - 1]);
      var last := if earlier == [] then None else Some(earlier[|earlier| - 1]);
      earlier + [Generate(readings[|readings| - 1], last)]
  }

  // The stamp's physical part is the greatest reading so far, which came up here
  // first, and its logical part counts the stamps taken since.
  ghost predicate TracksSince(stamp: Hlc, readings: seq<int>, first: nat) {
    && first < |readings| && readings[first] == stamp.physical
    && (forall i | 0 <= i < first :: readings[i] < stamp.physical)
    && (forall i | 0 <= i < |readings| :: readings[i] <= stamp.physical)
    && stamp.logical == |readings| - 1 - first
  }

  lemma {:induction false} StampTracksClock(readings: seq<int>) returns (first: nat)
    requires readings != []
    ensures TracksSince(Stamps(readings)[|readings| - 1], readings, first)
  {
    var n := |readings| - 1;
    if n == 0 {
      first := 0;
    } else {
      first := StampTracksClock(readings[..n]);
      if readings[n] > Stamps(readings[..n])[n - 1].physical {
        first := n;
      }
    }
  }

  // Whatever the physical clock does, stamps of one page strictly increase.
  lemma {:induction false} StampsIncrease(readings: seq<int>)
    ensures forall i, j | 0 <= i < j < |readings| :: Before(Stamps(readings)[i], Stamps(readings)[j])
  {
    if readings != [] {
      StampsIncrease(readings[..|readings| - 1]);
    }
  }

  lemma {:induction false} NextStampIsLatest(readings: seq<int>, next: int)
    ensures forall k | 0 <= k < |readings| :: Before(Stamps(readings)[k], Stamps(readings + [next])[|readings|])
  {
    var all := readings + [next];
    StampsIncrease(all);
    assert all[..|readings|] == readings;
    assert Stamps(all)[..|readings|] == Stamps(readings);
    forall k | 0 <= k < |readings| ensures Before(Stamps(readings)[k], Stamps(all)[|readings|]) {
      assert Stamps(all)[k] == Stamps(readings)[k];
    }
  }
}

module TemporalSequencing {
  import opened Common
  import opened HybridClock

  // A captured event. `enqueueTime` is the sequencer's own clock at arrival.
  datatype Event = Event(id: string, framePath: string, hlc: Hlc, enqueueTime: int)

  // What an emitter can hand over in the `hlc` field.
  datatype RawStamp =
    | Missing                       // no stamp, or no numeric physical part
    | NoLogical(physical: int)      // the logical part is not a number
    | Stamped(hlc: Hlc)

  datatype Sequenced = Sequenced(ges: nat, event: Event)

  function Depth(path: string): nat {
    if path == "" then 0 else (if path[0] == '.' then 1 else 0) + Depth(path[1..])
  }

  function CompareEvents(a: Event, b: Event): int {
    var c := Compare(a.hlc, b.hlc);
    if c != 0 then c else Depth(a.framePath) - Depth(b.framePath)
  }

  predicate Leq(a: Event, b: Event) { CompareEvents(a, b) <= 0 }

  // ---------- The heap ----------

  function Parent(i: nat): nat
    requires i > 0
  {
    (i - 1) / 2
  }

  ghost predicate HeapOrdered(h: seq<Event>) {
    forall i | 0 < i < |h| :: Leq(h[Parent(i)], h[i])
  }

  ghost predicate IsMinimum(e: Event, bag: multiset<Event>) {
    e in bag && forall x | x in bag :: Leq(e, x)
  }

  lemma {:induction false} RootIsLeast(h: seq<Event>, i: nat)
    requires HeapOrdered(h) && i < |h|
    ensures Leq(h[0], h[i])
    decreases i
  {
    if i > 0 {
      RootIsLeast(h, Parent(i));
    }
  }

  lemma RootIsMinimum(h: seq<Event>)
    requires HeapOrdered(h) && h != []
    ensures IsMinimum(h[0], multiset(h))
  {
    forall x | x in multiset(h) ensures Leq(h[0], x) {
      var i :| 0 <= i < |h| && h[i] == x;
      RootIsLeast(h, i);
    }
  }

  // Each dot of a frame path is one level of nesting.
  lemma {:induction false} DepthCountsDots(a: string, b: string)
    ensures Depth(a + "." + b) == Depth(a) + 1 + Depth(b)
    ensures '.' !in a ==> Depth(a) == 0
    decreases |a|
  {
    if a == "" {
      assert (a + "." + b)[1..] == b;
    } else {
      assert (a + "." + b)[1..] == a[1..] + "." + b;
      DepthCountsDots(a[1..], b);
    }
  }

  // What leaves first: the earlier stamp, and of equal stamps the outer frame.
  lemma MinimumLeavesFirst(e: Event, bag: multiset<Event>, x: Event)
    requires IsMinimum(e, bag) && x in bag
    ensures !Before(x.hlc, e.hlc)
    ensures x.hlc == e.hlc ==> Depth(e.framePath) <= Depth(x.framePath)
  {
  }

  lemma LeqTransitive(a: Event, b: Event, c: Event)
    requires Leq(a, b) && Leq(b, c)
    ensures Leq(a, c)
  {
  }

  // Heap order everywhere except between `hole` and its parent, where the
  // hole's children already respect the hole's parent.
  ghost predicate OrderedButUp(h: seq<Event>, hole: nat) {
    && (forall i | 0 < i < |h| && i != hole :: Leq(h[Parent(i)], h[i]))
    && (hole > 0 ==> forall i | 0 < i < |h| && Parent(i) == hole :: Leq(h[Parent(hole)], h[i]))
  }

  // Heap order everywhere except between `hole` and its children.
  ghost predicate OrderedButDown(h: seq<Event>, hole: nat) {
    && (forall i | 0 < i < |h| && Parent(i) != hole :: Leq(h[Parent(i)], h[i]))
    && (hole > 0 ==> forall i | 0 < i < |h| && Parent(i) == hole :: Leq(h[Parent(hole)], h[i]))
  }

  function Swapped(h: seq<Event>, i: nat, j: nat): (r: seq<Event>)
    requires i < |h| && j < |h|
    ensures |r| == |h|
  {
    h[i := h[j]][j := h[i]]
  }

  // Moving a too-small entry up moves the hole to its parent.
  lemma SiftUpStep(h: seq<Event>, hole: nat)
    requires 0 < hole < |h|
    requires OrderedButUp(h, hole) && CompareEvents(h[hole], h[Parent(hole)]) < 0
    ensures OrderedButUp(Swapped(h, hole, Parent(hole)), Parent(hole))
  {
    var p := Parent(hole);
    var h' := Swapped(h, hole, p);
    forall i | 0 < i < |h'| && i != p ensures Leq(h'[Parent(i)], h'[i]) {
      if i == hole {
      } else if Parent(i) == hole {
      } else if Parent(i) == p {
        assert Leq(h[p], h[i]);
        LeqTransitive(h[hole], h[p], h[i]);
      } else {
        assert h'[i] == h[i] && h'[Parent(i)] == h[Parent(i)];
      }
    }
    if p > 0 {
      var g := Parent(p);
      assert Leq(h[g], h[p]);
      forall i | 0 < i < |h'| && Parent(i) == p ensures Leq(h'[g], h'[i]) {
        if i != hole {
          assert Leq(h[p], h[i]);
          LeqTransitive(h[g], h[p], h[i]);
        }
      }
    }
  }

  // Moving a too-large entry down to its least child moves the hole to that child.
  lemma SiftDownStep(h: seq<Event>, hole: nat, child: nat)
    requires 0 < child < |h| && Parent(child) == hole
    requires OrderedButDown(h, hole) && CompareEvents(h[child], h[hole]) < 0
    requires forall i | 0 < i < |h| && Parent(i) == hole :: Leq(h[child], h[i])
    ensures OrderedButDown(Swapped(h, hole, child), child)
  {
  }

  class EventMinHeap {
    var heap: seq<Event>

    constructor ()
      ensures heap == []
    {
      heap := [];
    }

    function Peek(): (r: Option<Event>)
      reads this
    {
      if |heap| > 0 then Some(heap[0]) else None
    }

    method Push(item: Event)
      requires HeapOrdered(heap)
      modifies this
      ensures HeapOrdered(heap)
      ensures multiset(heap) == multiset(old(heap)) + multiset{item}
    {
      heap := heap + [item];
      HeapifyUp(|heap| - 1);
    }

    method Pop() returns (r: Option<Event>)
      requires HeapOrdered(heap)
      modifies this
      ensures HeapOrdered(heap)
      ensures r == old(Peek())
      ensures r == None ==> heap == []
      ensures r.Some? ==> IsMinimum(r.value, multiset(old(heap)))
      ensures r.Some? ==> multiset(old(heap)) == multiset(heap) + multiset{r.value}
    {
      if |heap| == 0 {
        return None;
      }
      RootIsMinimum(heap);
      PopLastMultiset(heap);
      var root := heap[0];
      var last := heap[|heap| - 1];
      heap := heap[..|heap| - 1];
      if |heap| > 0 {
        PopFirstMultiset(heap);
        PopFirstMultiset(heap[0 := last]);
        heap := heap[0 := last];
        HeapifyDown(0);
      }
      r := Some(root);
    }

    method Swap(i: nat, j: nat)
      requires i < |heap| && j < |heap|
      modifies this
      ensures heap == Swapped(old(heap), i, j)
      ensures multiset(heap) == multiset(old(heap))
    {
      SwapPermutes(heap, i, j);
      heap := heap[i := heap[j]][j := heap[i]];
    }

    method HeapifyUp(index: nat)
      requires index < |heap|
      requires OrderedButUp(heap, index)
      modifies this
      ensures HeapOrdered(heap)
      ensures multiset(heap) == multiset(old(heap))
    {
      var current: nat := index;
      while current > 0
        invariant current < |heap| == |old(heap)|
        invariant OrderedButUp(heap, current)
        invariant multiset(heap) == multiset(old(heap))
      {
        var parent := Parent(current);
        if CompareEvents(heap[current], heap[parent]) < 0 {
          SiftUpStep(heap, current);
          Swap(current, parent);
          current := parent;
        } else {
          break;
        }
      }
    }

    // The least of an entry and its children; a tie keeps the entry, or else the left child.
    method SmallestOf(current: nat) returns (smallest: nat)
      requires current < |heap|
      ensures smallest < |heap|
      ensures || smallest == current
              || (smallest > 0 && Parent(smallest) == current && CompareEvents(heap[smallest], heap[current]) < 0)
      ensures Leq(heap[smallest], heap[current])
      ensures forall i | 0 < i < |heap| && Parent(i) == current :: Leq(heap[smallest], heap[i])
    {
      var left, right := 2 * current + 1, 2 * current + 2;
      smallest := current;
      if left < |heap| && CompareEvents(heap[left], heap[smallest]) < 0 {
        smallest := left;
      }
      if right < |heap| && CompareEvents(heap[right], heap[smallest]) < 0 {
        smallest := right;
      }
      assert forall i | 0 < i < |heap| && Parent(i) == current :: i == left || i == right;
    }

    method HeapifyDown(index: nat)
      requires index < |heap|
      requires OrderedButDown(heap, index)
      modifies this
      ensures HeapOrdered(heap)
      ensures multiset(heap) == multiset(old(heap))
    {
      var current: nat := index;
      while true
        invariant current < |heap| == |old(heap)|
        invariant OrderedButDown(heap, current)
        invariant multiset(heap) == multiset(old(heap))
        decreases |heap| - current
      {
        var smallest := SmallestOf(current);
        if smallest != current {
          SiftDownStep(heap, current, smallest);
          Swap(current, smallest);
          current := smallest;
        } else {
          break;
        }
      }
    }
  }

  // ---------- The sequencer's observable state ----------

  // `accepted` is the history of events let in; `emitted` is the output stream.
  datatype View = View(
    buffer: multiset<Event>,
    last: Option<Hlc>,
    ges: nat,
    emitted: seq<Sequenced>,
    accepted: seq<Event>)

  const INITIAL := View(multiset{}, None, 0, [], [])

  predicate IsLate(v: View, hlc: Hlc) {
    v.last.Some? && Before(hlc, v.last.value)
  }

  ghost function Received(v: View, e: Event): View {
    v.(buffer := v.buffer + multiset{e}, accepted := v.accepted + [e])
  }

  ghost function EmittedOne(v: View, e: Event): View {
    v.(buffer := v.buffer - multiset{e}, last := Some(e.hlc), ges := v.ges + 1,
       emitted := v.emitted + [Sequenced(v.ges + 1, e)])
  }

  ghost predicate ReceiveStep(v: View, e: Event, v': View) {
    !IsLate(v, e.hlc) && v' == Received(v, e)
  }

  ghost predicate EmitStep(v: View, e: Event, v': View) {
    IsMinimum(e, v.buffer) && v' == EmittedOne(v, e)
  }

  predicate IsDue(e: Event, now: int, force: bool, deltaMs: int) {
    force || now - e.enqueueTime >= deltaMs
  }

  ghost predicate DueEmit(v: View, v': View, now: int, force: bool, deltaMs: int) {
    exists e :: EmitStep(v, e, v') && IsDue(e, now, force, deltaMs)
  }

  lemma EmitIsDue(v: View, e: Event, v': View, now: int, force: bool, deltaMs: int)
    requires Invariant(v) && EmitStep(v, e, v') && IsDue(e, now, force, deltaMs)
    ensures Invariant(v') && DueEmit(v, v', now, force, deltaMs)
  {
    EmitKeepsInvariant(v, e, v');
  }

  // `path` is the series of states of one flush: each step emits a due minimum.
  ghost predicate FlushPath(path: seq<View>, now: int, force: bool, deltaMs: int) {
    && path != []
    && forall i, j | 0 <= i && j == i + 1 < |path| :: DueEmit(path[i], path[j], now, force, deltaMs)
  }

  lemma ExtendFlushPath(path: seq<View>, v': View, now: int, force: bool, deltaMs: int)
    requires FlushPath(path, now, force, deltaMs)
    requires DueEmit(path[|path| - 1], v', now, force, deltaMs)
    ensures FlushPath(path + [v'], now, force, deltaMs)
  {
  }

  // A flush stops only at an empty buffer or at a minimum that is not due.
  ghost predicate FlushStops(v: View, now: int, force: bool, deltaMs: int) {
    v.buffer == multiset{} || exists e :: IsMinimum(e, v.buffer) && !IsDue(e, now, force, deltaMs)
  }

  ghost predicate Flushed(v: View, v': View, now: int, force: bool, deltaMs: int) {
    && FlushStops(v', now, force, deltaMs)
    && exists path :: FlushPath(path, now, force, deltaMs) && path[0] == v && path[|path| - 1] == v'
  }

  // An unforced flush lets out only what has waited for the whole window, and
  // stops at an empty buffer or at a minimum that has not; a forced one empties it.
  ghost predicate IsTimely(v: View, v': View, now: int, force: bool, deltaMs: int) {
    && v.emitted <= v'.emitted
    && (!force ==> forall i | |v.emitted| <= i < |v'.emitted| :: now - v'.emitted[i].event.enqueueTime >= deltaMs)
    && (!force ==>
          v'.buffer == multiset{} || exists e :: IsMinimum(e, v'.buffer) && now - e.enqueueTime < deltaMs)
    && (force ==> v'.buffer == multiset{})
  }

  lemma {:induction false} FlushPathIsTimely(path: seq<View>, now: int, force: bool, deltaMs: int)
    requires FlushPath(path, now, force, deltaMs)
    ensures var v, v' := path[0], path[|path| - 1];
      && v.emitted <= v'.emitted && v'.accepted == v.accepted
      && (!force ==> forall i | |v.emitted| <= i < |v'.emitted| :: now - v'.emitted[i].event.enqueueTime >= deltaMs)
  {
    var n := |path| - 1;
    if n > 0 {
      assert path[..n][..] == path[..n];
      forall i, j | 0 <= i && j == i + 1 < n ensures DueEmit(path[..n][i], path[..n][j], now, force, deltaMs) {
        assert DueEmit(path[i], path[j], now, force, deltaMs);
      }
      FlushPathIsTimely(path[..n], now, force, deltaMs);
      var k := n - 1;
      assert DueEmit(path[k], path[n], now, force, deltaMs);
    }
  }

  lemma FlushIsTimely(v: View, v': View, now: int, force: bool, deltaMs: int)
    requires Flushed(v, v', now, force, deltaMs)
    ensures IsTimely(v, v', now, force, deltaMs) && v'.accepted == v.accepted
  {
    var path :| FlushPath(path, now, force, deltaMs) && path[0] == v && path[|path| - 1] == v';
    FlushPathIsTimely(path, now, force, deltaMs);
  }

  lemma FlushEnds(path: seq<View>, now: int, force: bool, deltaMs: int)
    requires FlushPath(path, now, force, deltaMs) && FlushStops(path[|path| - 1], now, force, deltaMs)
    ensures Flushed(path[0], path[|path| - 1], now, force, deltaMs)
    ensures IsTimely(path[0], path[|path| - 1], now, force, deltaMs)
  {
    FlushIsTimely(path[0], path[|path| - 1], now, force, deltaMs);
  }

  ghost function Events(s: seq<Sequenced>): seq<Event> {
    seq(|s|, i requires 0 <= i < |s| => s[i].event)
  }

  ghost predicate InHlcOrder(s: seq<Sequenced>) {
    forall i, j | 0 <= i <= j < |s| :: AtMost(s[i].event.hlc, s[j].event.hlc)
  }

  // What every run keeps: gap-free numbers, output in clock order, nothing
  // waiting that belongs before the output, nothing lost and nothing invented.
  ghost predicate Invariant(v: View) {
    && v.ges == |v.emitted|
    && (forall i | 0 <= i < |v.emitted| :: v.emitted[i].ges == i + 1)
    && InHlcOrder(v.emitted)
    && v.last == (if v.emitted == [] then None else Some(v.emitted[|v.emitted| - 1].event.hlc))
    && (forall e | e in v.buffer :: !IsLate(v, e.hlc))
    && multiset(v.accepted) == multiset(Events(v.emitted)) + v.buffer
  }

  lemma ReceiveKeepsInvariant(v: View, e: Event, v': View)
    requires Invariant(v) && ReceiveStep(v, e, v')
    ensures Invariant(v')
  {
  }

  lemma EmitKeepsOrder(v: View, e: Event)
    requires Invariant(v) && IsMinimum(e, v.buffer)
    ensures InHlcOrder(EmittedOne(v, e).emitted)
  {
  }

  lemma EmitKeepsInvariant(v: View, e: Event, v': View)
    requires Invariant(v) && EmitStep(v, e, v')
    ensures Invariant(v')
  {
    EmitConserves(v, e);
    NoneIsLateAfter(v, e);
    EmitKeepsOrder(v, e);
  }

  lemma EmitConserves(v: View, e: Event)
    requires e in v.buffer && multiset(v.accepted) == multiset(Events(v.emitted)) + v.buffer
    ensures var v' := EmittedOne(v, e); multiset(v'.accepted) == multiset(Events(v'.emitted)) + v'.buffer
  {
    assert Events(EmittedOne(v, e).emitted) == Events(v.emitted) + [e];
  }

  lemma NoneIsLateAfter(v: View, e: Event)
    requires IsMinimum(e, v.buffer)
    ensures var v' := EmittedOne(v, e); forall x | x in v'.buffer :: !IsLate(v', x.hlc)
  {
    forall x | x in EmittedOne(v, e).buffer ensures !IsLate(EmittedOne(v, e), x.hlc) {
      assert x in v.buffer && Leq(e, x);
    }
  }

  ghost predicate Step(v: View, v': View) {
    exists e :: ReceiveStep(v, e, v') || EmitStep(v, e, v')
  }

  ghost predicate IsRun(run: seq<View>) {
    && run != []
    && run[0] == INITIAL
    && forall i, j | 0 <= i && j == i + 1 < |run| :: Step(run[i], run[j])
  }

  lemma StepKeepsInvariant(v: View, v': View)
    requires Invariant(v) && Step(v, v')
    ensures Invariant(v')
  {
    var e :| ReceiveStep(v, e, v') || EmitStep(v, e, v');
    if ReceiveStep(v, e, v') {
      ReceiveKeepsInvariant(v, e, v');
    } else {
      EmitKeepsInvariant(v, e, v');
    }
  }

  // Every state of every interleaving of arrivals and flushes meets the invariant.
  lemma {:induction false} EveryRunKeepsInvariant(run: seq<View>, k: nat)
    requires IsRun(run) && k < |run|
    ensures Invariant(run[k])
  {
    if k == 0 {
      assert Events([]) == [];
    } else {
      EveryRunKeepsInvariant(run, k - 1);
      StepKeepsInvariant(run[k - 1], run[k]);
    }
  }

  // An arrival is turned away exactly when some later-stamped event has left.
  lemma LateMeansOvertaken(v: View, hlc: Hlc)
    requires Invariant(v)
    ensures IsLate(v, hlc) <==> exists i :: 0 <= i < |v.emitted| && Before(hlc, v.emitted[i].event.hlc)
  {
  }

  // ---------- One capturing page ----------

  ghost predicate StrictlyStamped(s: seq<Event>) {
    forall i, j | 0 <= i < j < |s| :: Before(s[i].hlc, s[j].hlc)
  }

  // If `e` then `rest` hold what `a` holds, `e` is in clock order and before
  // `rest`, and `a` is strictly stamped, then `e` is the front of `a`.
  lemma {:induction false} OrderedFrontIsPrefix(a: seq<Event>, e: seq<Event>, rest: multiset<Event>)
    requires StrictlyStamped(a)
    requires multiset(a) == multiset(e) + rest
    requires forall i, j | 0 <= i <= j < |e| :: AtMost(e[i].hlc, e[j].hlc)
    requires forall i, x | 0 <= i < |e| && x in rest :: AtMost(e[i].hlc, x.hlc)
    ensures e <= a
    decreases |e|
  {
    if e != [] {
      FrontsAgree(a, e, rest);
      PopFirstMultiset(e);
      PopFirstMultiset(a);
      assert multiset(a[1..]) == multiset(a) - multiset{e[0]};
      OrderedFrontIsPrefix(a[1..], e[1..], rest);
    }
  }

  lemma {:induction false} FrontsAgree(a: seq<Event>, e: seq<Event>, rest: multiset<Event>)
    requires StrictlyStamped(a) && e != []
    requires multiset(a) == multiset(e) + rest
    requires forall i, j | 0 <= i <= j < |e| :: AtMost(e[i].hlc, e[j].hlc)
    requires forall i, x | 0 <= i < |e| && x in rest :: AtMost(e[i].hlc, x.hlc)
    ensures a != [] && a[0] == e[0]
  {
    assert e[0] in multiset(e);
    assert e[0] in multiset(a);
    var k :| 0 <= k < |a| && a[k] == e[0];
    assert a[0] in multiset(a);
    assert AtMost(e[0].hlc, a[0].hlc) by {
      if a[0] !in rest {
        assert a[0] in multiset(e);
        var i :| 0 <= i < |e| && e[i] == a[0];
      }
    }
    assert k == 0;
  }

  // Events of one page, received in capture order, get their numbers in capture order.
  lemma SingleSourceKeepsCaptureOrder(v: View)
    requires Invariant(v) && StrictlyStamped(v.accepted)
    ensures |v.emitted| <= |v.accepted|
    ensures forall i | 0 <= i < |v.emitted| :: v.emitted[i] == Sequenced(i + 1, v.accepted[i])
  {
    var e := Events(v.emitted);
    forall i, x | 0 <= i < |e| && x in v.buffer ensures AtMost(e[i].hlc, x.hlc) {
      assert !IsLate(v, x.hlc);
      assert AtMost(v.emitted[i].event.hlc, v.emitted[|v.emitted| - 1].event.hlc);
    }
    OrderedFrontIsPrefix(v.accepted, e, v.buffer);
    forall i | 0 <= i < |v.emitted| ensures v.emitted[i] == Sequenced(i + 1, v.accepted[i]) {
      assert e[i] == v.accepted[i];
    }
  }

  lemma NewestIsNeverLate(v: View, hlc: Hlc)
    requires Invariant(v)
    requires forall k | 0 <= k < |v.accepted| :: Before(v.accepted[k].hlc, hlc)
    ensures !IsLate(v, hlc)
  {
    if v.emitted != [] {
      var k := AcceptedPosition(v, |v.emitted| - 1);
    }
  }

  lemma AcceptedPosition(v: View, i: nat) returns (k: nat)
    requires Invariant(v) && i < |v.emitted|
    ensures k < |v.accepted| && v.accepted[k] == v.emitted[i].event
  {
    assert Events(v.emitted)[i] in multiset(v.accepted);
    k :| 0 <= k < |v.accepted| && v.accepted[k] == v.emitted[i].event;
  }

  // What happens to the sequencer: an event arrives, and may be late, or the
  // minimum leaves; anything else changes nothing.
  datatype Happening = Arrives(event: Event) | Leaves(event: Event)

  ghost function Happened(v: View, h: Happening): View {
    match h
    case Arrives(e) => if IsLate(v, e.hlc) then v else Received(v, e)
    case Leaves(e) => if IsMinimum(e, v.buffer) then EmittedOne(v, e) else v
  }

  ghost function AfterAll(hs: seq<Happening>): View {
    if hs == [] then INITIAL else Happened(AfterAll(hs[..|hs| - 1]), hs[|hs| - 1])
  }

  function Arrivals(hs: seq<Happening>): seq<Event> {
    if hs == [] then []
    else Arrivals(hs[..|hs| - 1]) + if hs[|hs| - 1].Arrives? then [hs[|hs| - 1].event] else []
  }

  lemma HappeningKeepsInvariant(v: View, h: Happening)
    requires Invariant(v)
    ensures Invariant(Happened(v, h))
  {
    match h {
      case Arrives(e) => if !IsLate(v, e.hlc) { ReceiveKeepsInvariant(v, e, Received(v, e)); }
      case Leaves(e) => if IsMinimum(e, v.buffer) { EmitKeepsInvariant(v, e, EmittedOne(v, e)); }
    }
  }

  lemma StampsOfPrefix(readings: seq<int>, n: nat)
    requires n <= |readings|
    ensures Stamps(readings[..n]) == Stamps(readings)[..n]
    decreases |readings|
  {
    if n < |readings| {
      StampsOfPrefix(readings[..|readings| - 1], n);
      assert readings[..|readings| - 1][..n] == readings[..n];
    } else {
      assert readings[..n] == readings;
    }
  }

  // The arrivals carry one page's stamps.
  ghost predicate FromOnePage(arrivals: seq<Event>, readings: seq<int>) {
    |arrivals| == |readings| && forall k | 0 <= k < |readings| :: arrivals[k].hlc == Stamps(readings)[k]
  }

  lemma OnePagePrefix(arrivals: seq<Event>, readings: seq<int>, n: nat)
    requires FromOnePage(arrivals, readings) && n <= |readings|
    ensures FromOnePage(arrivals[..n], readings[..n])
  {
    StampsOfPrefix(readings, n);
  }

  lemma NextOfPageIsNotLate(v: View, arrivals: seq<Event>, readings: seq<int>)
    requires Invariant(v) && FromOnePage(arrivals, readings) && arrivals != []
      && v.accepted == arrivals[..|arrivals| - 1]
    ensures !IsLate(v, arrivals[|arrivals| - 1].hlc)
  {
    StampsIncrease(readings);
    NewestIsNeverLate(v, arrivals[|arrivals| - 1].hlc);
  }

  // Whatever the page's clock reads and however arrivals and departures
  // interleave, none of the events one page captures is ever turned away.
  lemma {:induction false} SingleSourceIsNeverLate(hs: seq<Happening>, readings: seq<int>)
    requires FromOnePage(Arrivals(hs), readings)
    ensures Invariant(AfterAll(hs)) && AfterAll(hs).accepted == Arrivals(hs)
    decreases |hs|
  {
    if hs == [] {
      assert Events([]) == [];
    } else {
      var earlier, last := hs[..|hs| - 1], hs[|hs| - 1];
      var n := |Arrivals(earlier)|;
      assert Arrivals(hs)[..n] == Arrivals(earlier);
      OnePagePrefix(Arrivals(hs), readings, n);
      SingleSourceIsNeverLate(earlier, readings[..n]);
      HappeningKeepsInvariant(AfterAll(earlier), last);
      if last.Arrives? {
        NextOfPageIsNotLate(AfterAll(earlier), Arrivals(hs), readings);
      }
    }
  }

  // ... and they are numbered in capture order.
  lemma {:induction false} SingleSourceIsNumberedInOrder(hs: seq<Happening>, readings: seq<int>)
    requires FromOnePage(Arrivals(hs), readings)
    ensures var v := AfterAll(hs);
      |v.emitted| <= |readings| && forall i | 0 <= i < |v.emitted| :: v.emitted[i] == Sequenced(i + 1, Arrivals(hs)[i])
  {
    SingleSourceIsNeverLate(hs, readings);
    StampsIncrease(readings);
    SingleSourceKeepsCaptureOrder(AfterAll(hs));
  }

  // ---------- The reordering window ----------

  // What the sequencer meets, and when: an arrival, or an unforced flush.
  datatype Tick = Arrival(event: Event, now: int) | FlushAt(now: int)

  ghost predicate TickStep(v: View, tick: Tick, v': View, deltaMs: int) {
    match tick
    case Arrival(e, now) => e.enqueueTime == now && v' == if IsLate(v, e.hlc) then v else Received(v, e)
    case FlushAt(now) => Flushed(v, v', now, false, deltaMs)
  }

  // `run` lists the states around the ticks, and the clock never goes back.
  ghost predicate IsTimedRun(run: seq<View>, ticks: seq<Tick>, deltaMs: int) {
    && |run| == |ticks| + 1 && run[0] == INITIAL
    && (forall i | 0 <= i < |ticks| :: TickStep(run[i], ticks[i], run[i + 1], deltaMs))
    && forall i, j | 0 <= i <= j < |ticks| :: ticks[i].now <= ticks[j].now
  }

  lemma FlushKeepsInvariant(v: View, v': View, now: int, force: bool, deltaMs: int)
    requires Invariant(v) && Flushed(v, v', now, force, deltaMs)
    ensures Invariant(v')
  {
    var path :| FlushPath(path, now, force, deltaMs) && path[0] == v && path[|path| - 1] == v';
    PathKeepsInvariant(path, |path| - 1, now, force, deltaMs);
  }

  lemma {:induction false} PathKeepsInvariant(path: seq<View>, k: nat, now: int, force: bool, deltaMs: int)
    requires FlushPath(path, now, force, deltaMs) && Invariant(path[0]) && k < |path|
    ensures Invariant(path[k])
  {
    if k > 0 {
      var j := k - 1;
      PathKeepsInvariant(path, j, now, force, deltaMs);
      assert DueEmit(path[j], path[k], now, force, deltaMs);
      var e :| EmitStep(path[j], e, path[k]) && IsDue(e, now, force, deltaMs);
      EmitKeepsInvariant(path[j], e, path[k]);
    }
  }

  // Everything let in arrived at its tick, and everything let out so far had
  // waited for the window by this time.
  ghost predicate WaitedBy(v: View, ticks: seq<Tick>, now: int, deltaMs: int) {
    && Invariant(v)
    && (forall i | 0 <= i < |v.emitted| :: now - v.emitted[i].event.enqueueTime >= deltaMs)
    && (forall i | 0 <= i < |v.accepted| :: Arrival(v.accepted[i], v.accepted[i].enqueueTime) in ticks)
  }

  lemma {:induction false} EveryoneWaited(run: seq<View>, ticks: seq<Tick>, deltaMs: int, k: nat, now: int)
    requires IsTimedRun(run, ticks, deltaMs) && k <= |ticks| && forall i | 0 <= i < k :: ticks[i].now <= now
    ensures WaitedBy(run[k], ticks[..k], now, deltaMs)
    decreases k
  {
    if k == 0 {
      assert Events([]) == [];
    } else {
      var j, tick := k - 1, ticks[k - 1];
      EveryoneWaited(run, ticks, deltaMs, j, now);
      assert ticks[..k] == ticks[..j] + [tick];
      assert TickStep(run[j], tick, run[j + 1], deltaMs);
      match tick {
        case Arrival(e, at) =>
          if !IsLate(run[j], e.hlc) { ReceiveKeepsInvariant(run[j], e, run[k]); }
        case FlushAt(at) =>
          FlushIsTimely(run[j], run[k], at, false, deltaMs);
          FlushKeepsInvariant(run[j], run[k], at, false, deltaMs);
      }
    }
  }

  // What the window is for: an event is turned away as late only if it arrives
  // at least the window's length after some later-stamped event arrived.
  lemma LateOnlyAfterWindow(run: seq<View>, ticks: seq<Tick>, deltaMs: int, k: nat) returns (j: nat)
    requires IsTimedRun(run, ticks, deltaMs) && k < |ticks| && ticks[k].Arrival?
    requires IsLate(run[k], ticks[k].event.hlc)
    ensures j < k && ticks[j].Arrival? && Before(ticks[k].event.hlc, ticks[j].event.hlc)
    ensures ticks[k].now - ticks[j].now >= deltaMs
  {
    var v := run[k];
    EveryoneWaited(run, ticks, deltaMs, k, ticks[k].now);
    LateMeansOvertaken(v, ticks[k].event.hlc);
    var i :| 0 <= i < |v.emitted| && Before(ticks[k].event.hlc, v.emitted[i].event.hlc);
    var p := AcceptedPosition(v, i);
    var tick := Arrival(v.accepted[p], v.accepted[p].enqueueTime);
    assert tick in ticks[..k];
    j :| 0 <= j < k && ticks[j] == tick;
  }

  // ---------- The sequencer object ----------

  datatype Admission = Ignored | BadStamp | Late | Accepted

  class TemporalSequencer {
    const deltaMs: int
    const buffer: EventMinHeap
    var lastFlushedHLC: Option<Hlc>
    var currentGES: nat
    var running: bool
    // What listeners of the 'sequenced' event have been given.
    var emitted: seq<Sequenced>
    ghost var accepted: seq<Event>

    ghost function State(): View
      reads this, buffer
    {
      View(multiset(buffer.heap), lastFlushedHLC, currentGES, emitted, accepted)
    }

    ghost predicate Valid()
      reads this, buffer
    {
      HeapOrdered(buffer.heap) && Invariant(State())
    }

    constructor (deltaMs: int)
      ensures Valid() && fresh(buffer)
      ensures State() == INITIAL && !running && this.deltaMs == deltaMs
    {
      this.deltaMs := deltaMs;
      buffer := new EventMinHeap();
      lastFlushedHLC, currentGES, running := None, 0, false;
      emitted, accepted := [], [];
      new;
      assert Events([]) == [];
    }

    method Start()
      modifies this`running
      ensures running
    {
      if running { return; }
      running := true;
    }

    method Receive(id: string, framePath: string, stamp: RawStamp, now: int) returns (r: Admission)
      requires Valid()
      modifies this, buffer
      ensures Valid() && running == old(running)
      ensures r == Ignored <==> stamp.Missing?
      ensures r == BadStamp <==> stamp.NoLogical?
      ensures r == Late <==> stamp.Stamped? && IsLate(old(State()), stamp.hlc)
      ensures r != Accepted ==> State() == old(State())
      ensures r == Accepted ==> State() == Received(old(State()), Event(id, framePath, stamp.hlc, now))
      ensures r == Accepted || r == Late ==>
        TickStep(old(State()), Arrival(Event(id, framePath, stamp.hlc, now), now), State(), deltaMs)
    {
      if stamp.Missing? {
        return Ignored;
      }
      if stamp.NoLogical? {
        return BadStamp;
      }
      if lastFlushedHLC.Some? && Compare(stamp.hlc, lastFlushedHLC.value) < 0 {
        return Late;
      }
      ghost var before := State();
      var event := Event(id, framePath, stamp.hlc, now);
      buffer.Push(event);
      accepted := accepted + [event];
      ReceiveKeepsInvariant(before, event, State());
      r := Accepted;
    }

    // One turn of the flush loop: the heap's root leaves under the next number.
    method EmitNext() returns (ghost event: Event)
      requires Valid() && buffer.heap != []
      modifies this`currentGES, this`lastFlushedHLC, this`emitted, buffer
      ensures Valid()
      ensures old(buffer.Peek()) == Some(event)
      ensures EmitStep(old(State()), event, State())
      ensures |State().buffer| == |old(State()).buffer| - 1
    {
      ghost var before := State();
      var popped := buffer.Pop();
      event := popped.value;
      PopSize(before.buffer, multiset(buffer.heap), event);
      currentGES := currentGES + 1;
      lastFlushedHLC := Some(popped.value.hlc);
      emitted := emitted + [Sequenced(currentGES, popped.value)];
      EmitKeepsInvariant(before, event, State());
    }

    // The root, which is due, leaves: one more step of the flush.
    method EmitDue(ghost path: seq<View>, now: int, force: bool) returns (ghost longer: seq<View>)
      requires Valid() && buffer.heap != []
      requires FlushPath(path, now, force, deltaMs) && path[|path| - 1] == State()
      requires force || now - buffer.heap[0].enqueueTime >= deltaMs
      modifies this`currentGES, this`lastFlushedHLC, this`emitted, buffer
      ensures Valid()
      ensures FlushPath(longer, now, force, deltaMs) && longer[0] == path[0] && longer[|longer| - 1] == State()
      ensures |State().buffer| == |old(State()).buffer| - 1
    {
      ghost var here := State();
      ghost var event := EmitNext();
      EmitIsDue(here, event, State(), now, force, deltaMs);
      ExtendFlushPath(path, State(), now, force, deltaMs);
      longer := path + [State()];
    }

    method Flush(now: int, force: bool)
      requires Valid()
      modifies this`currentGES, this`lastFlushedHLC, this`emitted, buffer
      ensures Valid()
      ensures Flushed(old(State()), State(), now, force, deltaMs)
      ensures IsTimely(old(State()), State(), now, force, deltaMs)
    {
      ghost var before := State();
      ghost var path := [before];
      while true
        invariant Valid()
        invariant FlushPath(path, now, force, deltaMs)
        invariant path[0] == before && path[|path| - 1] == State()
        decreases |State().buffer|
      {
        var minEvent := buffer.Peek();
        if minEvent == None {
          break;
        }
        RootIsMinimum(buffer.heap);
        if force || now - minEvent.value.enqueueTime >= deltaMs {
          path := EmitDue(path, now, force);
        } else {
          break;
        }
      }
      FlushEnds(path, now, force, deltaMs);
    }

    // After a stop of a running sequencer the output is a sorted permutation
    // of everything that was ever let in.
    method Stop(now: int)
      requires Valid()
      modifies this, buffer
      ensures Valid() && !running
      ensures accepted == old(accepted)
      ensures if old(running) then Flushed(old(State()), State(), now, true, deltaMs) else State() == old(State())
      ensures old(running) ==>
        && buffer.heap == []
        && InHlcOrder(emitted)
        && multiset(Events(emitted)) == multiset(accepted)
    {
      if !running { return; }
      running := false;
      assert State() == old(State());
      Flush(now, true);
      assert State().buffer == multiset{};
      assert |multiset(buffer.heap)| == 0;
    }
  }

  lemma PopSize(whole: multiset<Event>, rest: multiset<Event>, e: Event)
    requires whole == rest + multiset{e}
    ensures |whole| == |rest| + 1
    ensures rest == whole - multiset{e}
  {
  }
}
