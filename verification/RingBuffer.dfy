// The page-side ring buffer of captured interactions: a circular array whose
// entries are acknowledged in any order and released from the front.

module RingBuffer {
  import opened Common

  datatype Slot = Slot(id: string, payload: string, acked: bool)

  // ---------- The queue the array stands for ----------

  function Pending(w: seq<Slot>): seq<Slot> {
    if w == [] then []
    else (if w[0].acked then [] else [w[0]]) + Pending(w[1..])
  }

  // Drop the longest acknowledged front.
  function Compact(w: seq<Slot>): (r: seq<Slot>)
    ensures FrontIsPending(r)
    ensures |r| <= |w|
  {
    if w != [] && w[0].acked then Compact(w[1..]) else w
  }

  predicate FrontIsPending(w: seq<Slot>) { w != [] ==> !w[0].acked }

  // The position of the first entry with this id, or the length.
  function FirstMatch(w: seq<Slot>, id: string): (i: nat)
    ensures i <= |w|
    ensures i < |w| ==> w[i].id == id
    ensures forall k | 0 <= k < i :: w[k].id != id
  {
    MatchFrom(w, id, 0)
  }

  function MatchFrom(w: seq<Slot>, id: string, start: nat): (i: nat)
    requires start <= |w|
    ensures start <= i <= |w|
    ensures i < |w| ==> w[i].id == id
    ensures forall k | start <= k < i :: w[k].id != id
    decreases |w| - start
  {
    if start == |w| || w[start].id == id then start else MatchFrom(w, id, start + 1)
  }

  function Acked(w: seq<Slot>, id: string): seq<Slot> {
    var i := FirstMatch(w, id);
    if i < |w| then Compact(w[i := w[i].(acked := true)]) else w
  }

  function AckAll(w: seq<Slot>, ids: seq<string>): seq<Slot>
    decreases |ids|
  {
    if ids == [] then w else AckAll(Acked(w, ids[0]), ids[1..])
  }

  ghost predicate DistinctIds(w: seq<Slot>) {
    forall i, j | 0 <= i < j < |w| :: w[i].id != w[j].id
  }

  lemma {:induction false} PendingSplits(a: seq<Slot>, b: seq<Slot>)
    ensures Pending(a + b) == Pending(a) + Pending(b)
    decreases |a|
  {
    if a == [] {
      assert a + b == b;
    } else {
      assert (a + b)[1..] == a[1..] + b;
      PendingSplits(a[1..], b);
    }
  }

  // Compaction loses no unacknowledged entry and keeps their order.
  lemma {:induction false} CompactKeepsPending(w: seq<Slot>)
    ensures Pending(Compact(w)) == Pending(w)
    decreases |w|
  {
    if w != [] && w[0].acked {
      CompactKeepsPending(w[1..]);
    }
  }

  // What compaction drops is acknowledged, and it stops at nothing acknowledged.
  lemma {:induction false} CompactDropsAckedFront(w: seq<Slot>)
    ensures var k := |w| - |Compact(w)|;
      && Compact(w) == w[k..]
      && (forall i | 0 <= i < k :: w[i].acked)
      && (k < |w| ==> !w[k].acked)
    decreases |w|
  {
    if w != [] && w[0].acked {
      CompactDropsAckedFront(w[1..]);
    }
  }

  lemma {:induction false} CompactKeepsDistinct(w: seq<Slot>)
    requires DistinctIds(w)
    ensures DistinctIds(Compact(w))
    decreases |w|
  {
    if w != [] && w[0].acked {
      CompactKeepsDistinct(w[1..]);
    }
  }

  // An acknowledgement removes from the unacknowledged entries the first match
  // if that entry was still open, and touches nothing else.
  lemma {:induction false} AckRemovesFirstMatch(w: seq<Slot>, id: string)
    ensures var i := FirstMatch(w, id);
      Pending(Acked(w, id)) ==
      if i < |w| then Pending(w[..i]) + Pending(w[i + 1..]) else Pending(w)
  {
    var i := FirstMatch(w, id);
    if i < |w| {
      MarkRemoves(w, i);
      assert Acked(w, id) == Compact(w[i := w[i].(acked := true)]);
    } else {
      assert Acked(w, id) == w;
    }
  }

  lemma {:induction false} MarkRemoves(w: seq<Slot>, i: nat)
    requires i < |w|
    ensures Pending(Compact(w[i := w[i].(acked := true)])) == Pending(w[..i]) + Pending(w[i + 1..])
  {
    var marked := w[i := w[i].(acked := true)];
    CompactKeepsPending(marked);
    PendingAround(marked, i);
    UpdateSlices(w, i, w[i].(acked := true));
  }

  lemma {:induction false} UpdateSlices(w: seq<Slot>, i: nat, s: Slot)
    requires i < |w|
    ensures w[i := s][..i] == w[..i] && w[i := s][i + 1..] == w[i + 1..]
  {
  }

  lemma {:induction false} PendingAround(w: seq<Slot>, i: nat)
    requires i < |w|
    ensures Pending(w) == Pending(w[..i]) + (if w[i].acked then [] else [w[i]]) + Pending(w[i + 1..])
  {
    assert w == w[..i] + w[i..];
    PendingSplits(w[..i], w[i..]);
    assert w[i..][1..] == w[i + 1..];
  }

  // With distinct ids, acknowledging a list of ids leaves open exactly the
  // entries not in the list, distinct and with an open front.
  lemma {:induction false} AckAllLeavesTheRest(w: seq<Slot>, ids: seq<string>)
    requires DistinctIds(w) && FrontIsPending(w)
    ensures DistinctIds(AckAll(w, ids)) && FrontIsPending(AckAll(w, ids))
    ensures forall s :: s in Pending(AckAll(w, ids)) <==> s in Pending(w) && s.id !in ids
    decreases |ids|
  {
    if ids != [] {
      var next := Acked(w, ids[0]);
      AckStep(w, ids[0]);
      AckAllLeavesTheRest(next, ids[1..]);
    }
  }

  lemma {:induction false} AckStep(w: seq<Slot>, id: string)
    requires DistinctIds(w) && FrontIsPending(w)
    ensures DistinctIds(Acked(w, id)) && FrontIsPending(Acked(w, id))
    ensures forall s :: s in Pending(Acked(w, id)) <==> s in Pending(w) && s.id != id
  {
    var i := FirstMatch(w, id);
    AckRemovesFirstMatch(w, id);
    if i < |w| {
      PendingAround(w, i);
      CompactKeepsDistinct(w[i := w[i].(acked := true)]);
      forall s | s in Pending(w[..i]) || s in Pending(w[i + 1..]) ensures s.id != id {
        PendingIsSubset(w[..i], s);
        PendingIsSubset(w[i + 1..], s);
      }
    } else {
      forall s | s in Pending(w) ensures s.id != id {
        PendingIsSubset(w, s);
      }
    }
  }

  lemma {:induction false} PendingIsSubset(w: seq<Slot>, s: Slot)
    ensures s in Pending(w) <==> s in w && !s.acked
    decreases |w|
  {
    if w != [] {
      PendingIsSubset(w[1..], s);
    }
  }

  // Once every distinct id has been acknowledged, in whatever order and however
  // often, the buffer is empty.
  lemma {:induction false} AllAckedMeansEmpty(w: seq<Slot>, ids: seq<string>)
    requires DistinctIds(w) && FrontIsPending(w)
    ensures AckAll(w, ids) == [] <==> forall s | s in Pending(w) :: s.id in ids
  {
    AckAllLeavesTheRest(w, ids);
    var end := AckAll(w, ids);
    if end != [] {
      PendingIsSubset(end, end[0]);
      assert end[0] in Pending(w) && end[0].id !in ids;
    }
  }

  // ---------- Whole runs ----------

  datatype Op = Put(id: string, payload: string) | Ack(ackId: string)

  function Next(capacity: nat, w: seq<Slot>, op: Op): seq<Slot> {
    match op
    case Put(id, payload) => if |w| < capacity then w + [Slot(id, payload, false)] else w
    case Ack(id) => Acked(w, id)
  }

  // The window after a run of enqueues and acknowledgements on an empty buffer.
  function WindowAfter(capacity: nat, ops: seq<Op>): seq<Slot> {
    if ops == [] then [] else Next(capacity, WindowAfter(capacity, ops[..|ops| - 1]), ops[|ops| - 1])
  }

  function WithoutId(s: seq<Slot>, id: string): seq<Slot> {
    if s == [] then []
    else if s[0].id == id then WithoutId(s[1..], id)
    else [s[0]] + WithoutId(s[1..], id)
  }

  // What is still to be acknowledged: everything that was let in, in order,
  // less what an acknowledgement has named since.
  function Outstanding(capacity: nat, ops: seq<Op>): seq<Slot> {
    if ops == [] then []
    else
      var earlier := ops[..|ops| - 1];
      match ops[|ops| - 1]
      case Put(id, payload) =>
        Outstanding(capacity, earlier) +
        if |WindowAfter(capacity, earlier)| < capacity then [Slot(id, payload, false)] else []
      case Ack(id) => WithoutId(Outstanding(capacity, earlier), id)
  }

  ghost predicate FreshIds(ops: seq<Op>) {
    forall i, j | 0 <= i < j < |ops| && ops[i].Put? && ops[j].Put? :: ops[i].id != ops[j].id
  }

  ghost predicate WasPut(ops: seq<Op>, id: string) {
    exists i :: 0 <= i < |ops| && ops[i].Put? && ops[i].id == id
  }

  lemma {:induction false} WithoutIdSplits(a: seq<Slot>, b: seq<Slot>, id: string)
    ensures WithoutId(a + b, id) == WithoutId(a, id) + WithoutId(b, id)
    decreases |a|
  {
    if a == [] {
      assert a + b == b;
    } else {
      assert (a + b)[1..] == a[1..] + b;
      WithoutIdSplits(a[1..], b, id);
    }
  }

  lemma {:induction false} WithoutAbsentId(w: seq<Slot>, id: string)
    requires forall i | 0 <= i < |w| :: w[i].id != id
    ensures WithoutId(Pending(w), id) == Pending(w)
    decreases |w|
  {
    if w != [] {
      WithoutAbsentId(w[1..], id);
      assert Pending(w)[..] == Pending(w);
      if !w[0].acked {
        assert Pending(w)[1..] == Pending(w[1..]);
      } else {
        assert Pending(w) == Pending(w[1..]);
      }
    }
  }

  lemma {:induction false} AckRemovesId(w: seq<Slot>, id: string)
    requires DistinctIds(w)
    ensures Pending(Acked(w, id)) == WithoutId(Pending(w), id)
  {
    var i := FirstMatch(w, id);
    AckRemovesFirstMatch(w, id);
    if i == |w| {
      WithoutAbsentId(w, id);
    } else {
      PendingAround(w, i);
      WithoutAbsentId(w[..i], id);
      WithoutAbsentId(w[i + 1..], id);
      RemoveMiddle(Pending(w[..i]), if w[i].acked then [] else [w[i]], Pending(w[i + 1..]), id);
    }
  }

  lemma {:induction false} RemoveMiddle(a: seq<Slot>, middle: seq<Slot>, c: seq<Slot>, id: string)
    requires |middle| <= 1 && forall i | 0 <= i < |middle| :: middle[i].id == id
    requires WithoutId(a, id) == a && WithoutId(c, id) == c
    ensures WithoutId(a + middle + c, id) == a + c
  {
    WithoutIdSplits(a + middle, c, id);
    WithoutIdSplits(a, middle, id);
    assert WithoutId(middle, id) == [];
  }

  // Over every run with fresh ids the ring holds, unacknowledged and in order,
  // exactly what was let in and not acknowledged since; and its front is never
  // an acknowledged entry.
  lemma {:induction false} EveryRunKeepsOutstanding(capacity: nat, ops: seq<Op>)
    requires FreshIds(ops)
    ensures var w := WindowAfter(capacity, ops);
      && Pending(w) == Outstanding(capacity, ops)
      && DistinctIds(w) && FrontIsPending(w) && |w| <= capacity && IdsWerePut(ops, w)
    decreases |ops|
  {
    if ops != [] {
      var earlier, last := ops[..|ops| - 1], ops[|ops| - 1];
      var w := WindowAfter(capacity, earlier);
      EveryRunKeepsOutstanding(capacity, earlier);
      PutsGrow(ops, w);
      match last {
        case Put(id, payload) =>
          PutIsNew(ops, w);
          PendingSplits(w, [Slot(id, payload, false)]);
        case Ack(id) =>
          AckRemovesId(w, id);
          AckStep(w, id);
          AckKeepsIds(w, id, ops);
      }
    }
  }

  ghost predicate IdsWerePut(ops: seq<Op>, w: seq<Slot>) {
    forall i | 0 <= i < |w| :: WasPut(ops, w[i].id)
  }

  lemma {:induction false} PutsGrow(ops: seq<Op>, w: seq<Slot>)
    requires ops != [] && IdsWerePut(ops[..|ops| - 1], w)
    ensures IdsWerePut(ops, w)
    ensures ops[|ops| - 1].Put? ==> WasPut(ops, ops[|ops| - 1].id)
  {
    var earlier := ops[..|ops| - 1];
    forall k | 0 <= k < |w| ensures WasPut(ops, w[k].id) {
      assert WasPut(earlier, w[k].id);
      var i :| 0 <= i < |earlier| && earlier[i].Put? && earlier[i].id == w[k].id;
      assert ops[i].Put? && ops[i].id == w[k].id;
    }
  }

  lemma {:induction false} PutIsNew(ops: seq<Op>, w: seq<Slot>)
    requires ops != [] && FreshIds(ops) && ops[|ops| - 1].Put? && IdsWerePut(ops[..|ops| - 1], w)
    ensures forall i | 0 <= i < |w| :: w[i].id != ops[|ops| - 1].id
  {
  }

  lemma {:induction false} CompactKeepsIds(w: seq<Slot>, ops: seq<Op>)
    requires IdsWerePut(ops, w)
    ensures IdsWerePut(ops, Compact(w))
    decreases |w|
  {
    if w != [] && w[0].acked {
      CompactKeepsIds(w[1..], ops);
    }
  }

  lemma {:induction false} AckKeepsIds(w: seq<Slot>, id: string, ops: seq<Op>)
    requires IdsWerePut(ops, w)
    ensures |Acked(w, id)| <= |w| && IdsWerePut(ops, Acked(w, id))
  {
    var i := FirstMatch(w, id);
    if i < |w| {
      CompactKeepsIds(w[i := w[i].(acked := true)], ops);
    }
  }

  // ---------- Repeated ids ----------

  // Acknowledging the id of any open entry closes an entry.
  ghost predicate EveryAckCloses(w: seq<Slot>) {
    forall j | 0 <= j < |w| && !w[j].acked :: |Pending(Acked(w, w[j].id))| < |Pending(w)|
  }

  // That is so exactly when the first entry with an open entry's id is open itself.
  lemma {:induction false} EveryAckClosesIff(w: seq<Slot>)
    ensures EveryAckCloses(w) <==> forall j | 0 <= j < |w| && !w[j].acked :: !w[FirstMatch(w, w[j].id)].acked
  {
    forall j | 0 <= j < |w| && !w[j].acked
      ensures FirstMatch(w, w[j].id) < |w|
      ensures |Pending(Acked(w, w[j].id))| < |Pending(w)| <==> !w[FirstMatch(w, w[j].id)].acked
    {
      var i := FirstMatch(w, w[j].id);
      AckRemovesFirstMatch(w, w[j].id);
      PendingAround(w, i);
    }
  }

  // Entries with one id are acknowledged in order.
  ghost predicate AckedInOrder(w: seq<Slot>) {
    forall i, j | 0 <= i < j < |w| && w[i].id == w[j].id && w[j].acked :: w[i].acked
  }

  // Entries with one id are all acknowledged or all open.
  ghost predicate Uniform(w: seq<Slot>) {
    forall i, j | 0 <= i < j < |w| && w[i].id == w[j].id :: w[i].acked == w[j].acked
  }

  lemma {:induction false} EveryAckClosesIffUniform(w: seq<Slot>)
    requires AckedInOrder(w)
    ensures EveryAckCloses(w) <==> Uniform(w)
  {
    EveryAckClosesIff(w);
    if Uniform(w) {
      forall j | 0 <= j < |w| && !w[j].acked ensures !w[FirstMatch(w, w[j].id)].acked {
        assert FirstMatch(w, w[j].id) <= j;
      }
    } else {
      FirstIsAcked(w);
    }
  }

  lemma {:induction false} FirstIsAcked(w: seq<Slot>)
    requires AckedInOrder(w) && !Uniform(w)
    ensures exists j :: 0 <= j < |w| && !w[j].acked && w[FirstMatch(w, w[j].id)].acked
  {
    var i, j :| 0 <= i < j < |w| && w[i].id == w[j].id && w[i].acked != w[j].acked;
    var first := FirstMatch(w, w[j].id);
    assert !w[j].acked && first <= i && w[first].id == w[i].id;
  }

  // The operation leaves an acknowledged entry and an open one with the same id:
  // an id is put again while an acknowledged entry still waits to be released,
  // or one of several entries is acknowledged that is not at the front.
  ghost predicate Strands(capacity: nat, w: seq<Slot>, op: Op) {
    match op
    case Put(id, _) => |w| < capacity && exists i :: 0 <= i < |w| && w[i].id == id && w[i].acked
    case Ack(id) =>
      var i := FirstMatch(w, id);
      0 < i < |w| && !w[i].acked && exists j :: i < j < |w| && w[j].id == id
  }

  lemma {:induction false} MarkingStaysInOrder(w: seq<Slot>, id: string)
    requires AckedInOrder(w)
    ensures AckedInOrder(Acked(w, id))
  {
    var i := FirstMatch(w, id);
    if i < |w| {
      CompactDropsAckedFront(w[i := w[i].(acked := true)]);
    }
  }

  lemma {:induction false} AckStaysUniformIff(capacity: nat, w: seq<Slot>, id: string)
    requires Uniform(w) && FrontIsPending(w)
    ensures Uniform(Acked(w, id)) <==> !Strands(capacity, w, Ack(id))
  {
    var i := FirstMatch(w, id);
    if i < |w| {
      var marked := w[i := w[i].(acked := true)];
      if i == 0 {
        CompactDropsAckedFront(marked);
        var k := |marked| - |Compact(marked)|;
        assert marked[0].acked && k >= 1;
        assert forall j | k <= j < |w| :: Compact(marked)[j - k] == w[j];
      } else {
        assert marked[0] == w[0] && Compact(marked) == marked;
        if Strands(capacity, w, Ack(id)) {
          var j :| i < j < |w| && w[j].id == id;
          assert marked[i].acked && marked[j] == w[j] && !w[j].acked;
        }
      }
    }
  }

  lemma {:induction false} StepStaysUniformIff(capacity: nat, w: seq<Slot>, op: Op)
    requires Uniform(w) && FrontIsPending(w)
    ensures Uniform(Next(capacity, w, op)) <==> !Strands(capacity, w, op)
  {
    match op {
      case Put(id, payload) =>
        var w' := Next(capacity, w, op);
        if Strands(capacity, w, op) {
          var i :| 0 <= i < |w| && w[i].id == id && w[i].acked;
          assert w'[i].acked && !w'[|w|].acked;
        }
      case Ack(id) =>
        AckStaysUniformIff(capacity, w, id);
    }
  }

  // At every point of the run, every acknowledgement of an open id closes an entry.
  ghost predicate AlwaysCloses(capacity: nat, ops: seq<Op>) {
    EveryAckCloses(WindowAfter(capacity, ops)) && (ops != [] ==> AlwaysCloses(capacity, ops[..|ops| - 1]))
  }

  ghost predicate NeverStrands(capacity: nat, ops: seq<Op>) {
    ops != [] ==>
      && NeverStrands(capacity, ops[..|ops| - 1])
      && !Strands(capacity, WindowAfter(capacity, ops[..|ops| - 1]), ops[|ops| - 1])
  }

  // Over every run, whatever ids it uses, acknowledgements always work exactly
  // as long as no operation strands an entry behind an acknowledged one.
  lemma {:induction false} AcksAlwaysWorkIff(capacity: nat, ops: seq<Op>)
    ensures AlwaysCloses(capacity, ops) <==> NeverStrands(capacity, ops)
    ensures var w := WindowAfter(capacity, ops);
      AckedInOrder(w) && FrontIsPending(w) && (AlwaysCloses(capacity, ops) ==> Uniform(w))
    decreases |ops|
  {
    var w := WindowAfter(capacity, ops);
    if ops != [] {
      var earlier, last := ops[..|ops| - 1], ops[|ops| - 1];
      var before := WindowAfter(capacity, earlier);
      AcksAlwaysWorkIff(capacity, earlier);
      StepKeepsShape(capacity, before, last);
      if AlwaysCloses(capacity, earlier) {
        StepStaysUniformIff(capacity, before, last);
      }
    }
    EveryAckClosesIffUniform(w);
  }

  lemma {:induction false} StepKeepsShape(capacity: nat, w: seq<Slot>, op: Op)
    requires AckedInOrder(w) && FrontIsPending(w)
    ensures AckedInOrder(Next(capacity, w, op)) && FrontIsPending(Next(capacity, w, op))
  {
    if op.Ack? { MarkingStaysInOrder(w, op.ackId); }
  }

  // A repeated id needs more acknowledgements than entries: the second one hits
  // the entry that is already acknowledged.
  lemma {:induction false} RepeatedIdsCanStick(x: Slot, a: Slot)
    requires !x.acked && !a.acked && x.id != a.id
    ensures AckAll([x, a, a], [a.id, a.id, x.id]) == [a]
  {
    var marked := [x, a.(acked := true), a];
    AckMiddle(x, a, a);
    AckMiddle(x, a.(acked := true), a);
    AckFrontOfThree(x, a);
    AckAllCons([x, a, a], a.id, [a.id, x.id]);
    AckAllCons(marked, a.id, [x.id]);
    AckAllCons(marked, x.id, []);
    assert [a.id] + [a.id, x.id] == [a.id, a.id, x.id] && [a.id] + [x.id] == [a.id, x.id] && [x.id] + [] == [x.id];
  }

  lemma {:induction false} AckAllCons(w: seq<Slot>, id: string, ids: seq<string>)
    ensures AckAll(w, [id] + ids) == AckAll(Acked(w, id), ids)
  {
  }

  lemma {:induction false} AckMiddle(x: Slot, b: Slot, a: Slot)
    requires !x.acked && x.id != b.id
    ensures Acked([x, b, a], b.id) == [x, b.(acked := true), a]
  {
    var w := [x, b, a];
    var i := FirstMatch(w, b.id);
    assert w[0].id != b.id && w[1].id == b.id;
    assert i == 1;
  }

  lemma {:induction false} AckFrontOfThree(x: Slot, a: Slot)
    requires !a.acked
    ensures Acked([x, a.(acked := true), a], x.id) == [a]
  {
    var w := [x, a.(acked := true), a];
    assert w[0].id == x.id;
    var x', a' := x.(acked := true), a.(acked := true);
    assert w[0 := x'] == [x'] + ([a'] + [a]);
    CompactCons(x', [a'] + [a]);
    CompactCons(a', [a]);
  }

  lemma {:induction false} CompactCons(s: Slot, w: seq<Slot>)
    requires s.acked
    ensures Compact([s] + w) == Compact(w)
  {
  }

  // ---------- The circular array ----------

  // The array position of window entry `i`.
  function Position(head: nat, i: nat, capacity: nat): (p: nat)
    requires head < capacity && i <= capacity
    ensures p < capacity
  {
    if head + i < capacity then head + i else head + i - capacity
  }

  lemma WrapIsModulo(head: nat, i: nat, capacity: nat)
    requires head < capacity && i <= capacity
    ensures (head + i) % capacity == Position(head, i, capacity)
  {
    var x := head + i;
    var q := x / capacity;
    assert x == q * capacity + x % capacity;
    MultipleIsFar(q, capacity);
    MultipleIsFar(q - 1, capacity);
    MultipleIsFar(q - 2, capacity);
    assert q * capacity == (q - 1) * capacity + capacity == (q - 2) * capacity + 2 * capacity;
  }

  class ClientRingBuffer {
    const capacity: nat
    const buffer: array<Option<Slot>>
    var head: nat
    var tail: nat
    var pendingCount: nat

    ghost predicate Shape()
      reads this, buffer
    {
      && buffer.Length == capacity
      && head < capacity
      && pendingCount <= capacity
      && tail == Position(head, pendingCount, capacity)
      && (forall i | 0 <= i < pendingCount :: buffer[Position(head, i, capacity)].Some?)
    }

    ghost function Window(): (w: seq<Slot>)
      requires Shape()
      reads this, buffer
      ensures |w| == pendingCount
    {
      seq(pendingCount, i requires 0 <= i < pendingCount && Shape() reads this, buffer =>
        buffer[Position(head, i, capacity)].value)
    }

    ghost predicate Valid()
      reads this, buffer
    {
      Shape() && FrontIsPending(Window())
    }

    constructor (capacity: nat)
      requires capacity > 0
      ensures Valid() && fresh(buffer)
      ensures this.capacity == capacity && Window() == []
    {
      this.capacity := capacity;
      buffer := new Option<Slot>[capacity](_ => None);
      head, tail, pendingCount := 0, 0, 0;
    }

    // Fails exactly when the window is full; otherwise the entry joins the back.
    method Enqueue(id: string, payload: string) returns (ok: bool)
      requires Valid()
      modifies this, buffer
      ensures Valid()
      ensures ok <==> |old(Window())| < capacity
      ensures Window() == if ok then old(Window()) + [Slot(id, payload, false)] else old(Window())
    {
      if pendingCount >= capacity {
        return false;
      }
      ghost var before := Window();
      WrapIsModulo(tail, 1, capacity);
      buffer[tail] := Some(Slot(id, payload, false));
      tail := (tail + 1) % capacity;
      pendingCount := pendingCount + 1;
      assert Window() == before + [Slot(id, payload, false)];
      ok := true;
    }

    // Marks the first entry with this id and releases the acknowledged front.
    method Ack(id: string) returns (ok: bool)
      requires Valid()
      modifies this, buffer
      ensures Valid()
      ensures ok <==> exists s :: s in old(Window()) && s.id == id
      ensures Window() == Acked(old(Window()), id)
    {
      ghost var before := Window();
      for i := 0 to pendingCount
        invariant Valid() && Window() == before
        invariant forall k | 0 <= k < i :: before[k].id != id
      {
        var idx := (head + i) % capacity;
        WrapIsModulo(head, i, capacity);
        assert before[i] == buffer[idx].value;
        if buffer[idx].Some? && buffer[idx].value.id == id {
          assert FirstMatch(before, id) == i;
          buffer[idx] := Some(buffer[idx].value.(acked := true));
          ghost var marked := before[i := before[i].(acked := true)];
          assert Window() == marked;
          Release();
          return true;
        }
      }
      ok := false;
    }

    method Release()
      requires Shape()
      modifies this`head, this`pendingCount, buffer
      ensures Valid()
      ensures Window() == Compact(old(Window()))
    {
      while pendingCount > 0 && Front().acked
        invariant Shape()
        invariant Compact(Window()) == Compact(old(Window()))
        decreases pendingCount
      {
        ReleaseFront();
      }
    }

    function Front(): (s: Slot)
      requires Shape() && pendingCount > 0
      reads this, buffer
      ensures s == Window()[0]
    {
      assert Position(head, 0, capacity) == head;
      buffer[head].value
    }

    // The body of the release loop: the front entry leaves the window.
    method ReleaseFront()
      requires Shape() && pendingCount > 0
      modifies this`head, this`pendingCount, buffer
      ensures Shape() && pendingCount == old(pendingCount) - 1
      ensures Window() == old(Window())[1..]
    {
      WrapIsModulo(head, 1, capacity);
      ghost var before := Window();
      buffer[head] := None;
      head := (head + 1) % capacity;
      pendingCount := pendingCount - 1;
      forall i | 0 <= i < pendingCount
        ensures buffer[Position(head, i, capacity)] == Some(before[i + 1])
      {
        assert Position(head, i, capacity) == Position(old(head), i + 1, capacity);
      }
      assert Window() == before[1..];
    }
  }
}
