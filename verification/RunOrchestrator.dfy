// Ownership of accounts by runs, and the cycle lease that unlocks the one
// non-idempotent command of a betting cycle.

module RunOrchestration {
  import opened Common

  datatype RunState = Executing | Frozen

  datatype Lease = Lease(runId: string, cycleId: Option<string>, state: RunState)

  // Account id to the run that owns the account.
  type Runs = map<string, Lease>

  ghost predicate UniqueRuns(runs: Runs) {
    forall a, b | a in runs && b in runs && runs[a].runId == runs[b].runId :: a == b
  }

  predicate Holds(runs: Runs, runId: string) {
    exists a :: a in runs && runs[a].runId == runId
  }

  function Acquired(runs: Runs, account: string, authorized: bool, runId: string): Runs {
    if authorized && account !in runs then runs[account := Lease(runId, None, Executing)] else runs
  }

  function WithCycle(runs: Runs, runId: string, cycleId: Option<string>): Runs {
    map a | a in runs :: if runs[a].runId == runId then runs[a].(cycleId := cycleId) else runs[a]
  }

  function MarkedUncertain(runs: Runs, account: string): Runs {
    if account in runs then runs[account := runs[account].(state := Frozen)] else runs
  }

  predicate Validates(runs: Runs, cycleId: Option<string>) {
    cycleId.Some? && cycleId.value != "" && exists a :: a in runs && runs[a].cycleId == cycleId
  }

  // ---------- Histories ----------

  datatype Action =
    | Acquire(account: string, authorized: bool, runId: string)
    | SetCycle(runId: string, cycleId: string)
    | ClearCycle(runId: string)
    | Release(account: string)
    | MarkUncertain(account: string)

  function Perform(runs: Runs, x: Action): Runs {
    match x
    case Acquire(account, authorized, runId) => Acquired(runs, account, authorized, runId)
    case SetCycle(runId, cycleId) => WithCycle(runs, runId, Some(cycleId))
    case ClearCycle(runId) => WithCycle(runs, runId, None)
    case Release(account) => runs - {account}
    case MarkUncertain(account) => MarkedUncertain(runs, account)
  }

  // The table after a history that starts from an empty one.
  function After(h: seq<Action>): Runs {
    if h == [] then map[] else Perform(After(h[..|h| - 1]), h[|h| - 1])
  }

  // Run ids are never reused.
  ghost predicate FreshRunIds(h: seq<Action>) {
    forall i, j | 0 <= i < j < |h| && h[i].Acquire? && h[j].Acquire? :: h[i].runId != h[j].runId
  }

  ghost predicate Acquires(h: seq<Action>, runId: string) {
    exists i :: 0 <= i < |h| && h[i].Acquire? && h[i].runId == runId
  }

  // At step i of the history a run that owns an account opens this cycle.
  ghost predicate OpensAt(h: seq<Action>, i: nat, runId: string, cycleId: string) {
    i < |h| && h[i] == SetCycle(runId, cycleId) && Holds(After(h[..i]), runId)
  }

  // Step j ends whatever cycle the run has open.
  ghost predicate ClosesAt(h: seq<Action>, j: nat, runId: string) {
    j < |h| && match h[j]
    case SetCycle(r, _) => r == runId
    case ClearCycle(r) => r == runId
    case Release(a) => var before := After(h[..j]); a in before && before[a].runId == runId
    case _ => false
  }

  ghost predicate IsOpen(h: seq<Action>, runId: string, cycleId: string) {
    exists i: nat :: OpensAt(h, i, runId, cycleId) && StaysOpen(h, i, runId)
  }

  ghost predicate StaysOpen(h: seq<Action>, i: nat, runId: string) {
    forall j | i < j < |h| :: !ClosesAt(h, j, runId)
  }

  lemma {:induction false} TableInvariant(h: seq<Action>)
    requires FreshRunIds(h)
    ensures UniqueRuns(After(h))
    ensures forall a | a in After(h) :: Acquires(h, After(h)[a].runId)
  {
    if h != [] {
      var n := |h| - 1;
      var before := h[..n];
      TableInvariant(before);
      forall r | Acquires(before, r) ensures Acquires(h, r) {
        var i :| 0 <= i < |before| && before[i].Acquire? && before[i].runId == r;
        assert h[i] == before[i];
      }
      if h[n].Acquire? {
        assert !Acquires(before, h[n].runId);
        assert Acquires(h, h[n].runId);
      }
    }
  }

  lemma {:induction false} PrefixAgrees(h: seq<Action>, j: nat, runId: string, cycleId: string)
    requires j < |h| - 1
    ensures ClosesAt(h[..|h| - 1], j, runId) == ClosesAt(h, j, runId)
    ensures OpensAt(h[..|h| - 1], j, runId, cycleId) == OpensAt(h, j, runId, cycleId)
  {
    assert h[..|h| - 1][..j] == h[..j];
  }

  // Being open after one more step: opened by it, or open before and not closed by it.
  lemma {:induction false} OpenUnfolds(h: seq<Action>, runId: string, cycleId: string)
    requires h != []
    ensures var n := |h| - 1;
      IsOpen(h, runId, cycleId) <==>
      OpensAt(h, n, runId, cycleId) || (IsOpen(h[..n], runId, cycleId) && !ClosesAt(h, n, runId))
  {
    var n := |h| - 1;
    var before := h[..n];
    forall j | 0 <= j < n
      ensures ClosesAt(before, j, runId) == ClosesAt(h, j, runId)
      ensures OpensAt(before, j, runId, cycleId) == OpensAt(h, j, runId, cycleId)
    {
      PrefixAgrees(h, j, runId, cycleId);
    }
    if IsOpen(h, runId, cycleId) && !OpensAt(h, n, runId, cycleId) {
      var i: nat :| OpensAt(h, i, runId, cycleId) && StaysOpen(h, i, runId);
      assert OpensAt(before, i, runId, cycleId) && StaysOpen(before, i, runId);
    }
    if IsOpen(before, runId, cycleId) && !ClosesAt(h, n, runId) {
      var i: nat :| OpensAt(before, i, runId, cycleId) && StaysOpen(before, i, runId);
      assert OpensAt(h, i, runId, cycleId) && StaysOpen(h, i, runId);
    }
    if OpensAt(h, n, runId, cycleId) {
      assert StaysOpen(h, n, runId);
    }
  }

  ghost predicate HasCycle(runs: Runs, runId: string, cycleId: string) {
    exists a :: a in runs && runs[a].runId == runId && runs[a].cycleId == Some(cycleId)
  }

  // One step changes the lease of a run just as the history says.
  lemma HasCycleUnfolds(h: seq<Action>, runId: string, cycleId: string)
    requires h != [] && FreshRunIds(h)
    ensures var n := |h| - 1;
      HasCycle(After(h), runId, cycleId) <==>
      OpensAt(h, n, runId, cycleId) || (HasCycle(After(h[..n]), runId, cycleId) && !ClosesAt(h, n, runId))
  {
    var n := |h| - 1;
    var before := After(h[..n]);
    TableInvariant(h[..n]);
    StepOnLease(before, h[n], runId, cycleId);
    if h[n].Acquire? && h[n].runId == runId {
      assert !Acquires(h[..n], runId);
    }
  }

  lemma StepOnLease(runs: Runs, x: Action, runId: string, cycleId: string)
    requires UniqueRuns(runs)
    requires x.Acquire? && x.runId == runId ==> !Holds(runs, runId)
    ensures var after := Perform(runs, x);
      HasCycle(after, runId, cycleId) <==>
      match x
      case SetCycle(r, c) =>
        if r == runId then c == cycleId && Holds(runs, runId) else HasCycle(runs, runId, cycleId)
      case ClearCycle(r) => r != runId && HasCycle(runs, runId, cycleId)
      case Release(a) => !(a in runs && runs[a].runId == runId) && HasCycle(runs, runId, cycleId)
      case _ => HasCycle(runs, runId, cycleId)
  {
    var after := Perform(runs, x);
    if HasCycle(runs, runId, cycleId) {
      var a :| a in runs && runs[a].runId == runId && runs[a].cycleId == Some(cycleId);
      assert a in after ==> after[a].runId == runId;
    }
    if Holds(runs, runId) {
      var a :| a in runs && runs[a].runId == runId;
      assert a in after ==> after[a].runId == runId;
    }
    if HasCycle(after, runId, cycleId) {
      var a :| a in after && after[a].runId == runId && after[a].cycleId == Some(cycleId);
      assert a in runs && runs[a].runId == runId;
    }
  }

  lemma {:induction false} LeaseIsOpenCycle(h: seq<Action>, runId: string, cycleId: string)
    requires FreshRunIds(h)
    ensures HasCycle(After(h), runId, cycleId) <==> IsOpen(h, runId, cycleId)
  {
    if h == [] {
      assert forall i: nat :: !OpensAt(h, i, runId, cycleId);
    } else {
      LeaseIsOpenCycle(h[..|h| - 1], runId, cycleId);
      HasCycleUnfolds(h, runId, cycleId);
      OpenUnfolds(h, runId, cycleId);
    }
  }

  // Over any interleaving of runs on any accounts, a cycle id is honoured
  // exactly from the moment its run opens it until that run's next opening,
  // clearing or release.
  lemma LeaseWindow(h: seq<Action>, cycleId: string)
    requires FreshRunIds(h) && cycleId != ""
    ensures Validates(After(h), Some(cycleId)) <==> exists r :: IsOpen(h, r, cycleId)
  {
    var runs := After(h);
    if Validates(runs, Some(cycleId)) {
      var a :| a in runs && runs[a].cycleId == Some(cycleId);
      LeaseIsOpenCycle(h, runs[a].runId, cycleId);
    }
    if r :| IsOpen(h, r, cycleId) {
      LeaseIsOpenCycle(h, r, cycleId);
    }
  }

  // A command that carries the id of a cycle already closed is rejected.
  lemma FinishedCycleIsRejected(h: seq<Action>, i: nat, k: nat)
    requires FreshRunIds(h)
    requires i < k < |h| && h[i].SetCycle? && ClosesAt(h, k, h[i].runId)
    requires forall j | 0 <= j < |h| && h[j].SetCycle? && h[j].cycleId == h[i].cycleId :: j == i
    ensures !Validates(After(h), Some(h[i].cycleId))
  {
    var c := h[i].cycleId;
    if c != "" {
      LeaseWindow(h, c);
      forall r ensures !IsOpen(h, r, c) {
        ClosedStaysClosed(h, i, k, r, c);
      }
    }
  }

  lemma ClosedStaysClosed(h: seq<Action>, i: nat, k: nat, r: string, c: string)
    requires i < k < |h| && h[i].SetCycle? && ClosesAt(h, k, h[i].runId)
    requires forall j | 0 <= j < |h| && h[j].SetCycle? && h[j].cycleId == c :: j == i
    ensures !IsOpen(h, r, c)
  {
  }

  lemma OnlyMatch(runs: Runs, account: string, cycleId: Option<string>)
    requires UniqueRuns(runs) && account in runs
    ensures runs[account := runs[account].(cycleId := cycleId)] == WithCycle(runs, runs[account].runId, cycleId)
    ensures UniqueRuns(WithCycle(runs, runs[account].runId, cycleId))
    ensures Holds(runs, runs[account].runId)
  {
  }

  lemma NoMatch(runs: Runs, runId: string, cycleId: Option<string>)
    requires forall a | a in runs :: runs[a].runId != runId
    ensures WithCycle(runs, runId, cycleId) == runs && !Holds(runs, runId)
  {
  }

  // ---------- The orchestrator object ----------

  class RunOrchestrator {
    var activeRuns: Runs

    constructor ()
      ensures activeRuns == map[]
    {
      activeRuns := map[];
    }

    method AcquireOwnership(account: string, authorized: bool, runId: string) returns (r: Option<string>)
      requires UniqueRuns(activeRuns) && !Holds(activeRuns, runId)
      modifies this
      ensures UniqueRuns(activeRuns)
      ensures activeRuns == Acquired(old(activeRuns), account, authorized, runId)
      ensures r == if authorized && account !in old(activeRuns) then Some(runId) else None
      ensures r.Some? ==> account in activeRuns && activeRuns[account] == Lease(runId, None, Executing)
    {
      if !authorized {
        return None;
      }
      if account in activeRuns {
        return None;
      }
      assert forall a | a in activeRuns :: activeRuns[a].runId != runId;
      activeRuns := activeRuns[account := Lease(runId, None, Executing)];
      r := Some(runId);
    }

    // The walk over the owned accounts stops at the first match, which is the only one.
    method SetLease(runId: string, cycleId: Option<string>) returns (found: bool)
      requires UniqueRuns(activeRuns)
      modifies this
      ensures UniqueRuns(activeRuns)
      ensures activeRuns == WithCycle(old(activeRuns), runId, cycleId)
      ensures found <==> Holds(old(activeRuns), runId)
    {
      var accounts := activeRuns.Keys;
      while accounts != {}
        invariant accounts <= activeRuns.Keys && activeRuns == old(activeRuns)
        invariant forall a | a in activeRuns && a !in accounts :: activeRuns[a].runId != runId
        decreases |accounts|
      {
        var account := PickOne(accounts);
        if activeRuns[account].runId == runId {
          OnlyMatch(activeRuns, account, cycleId);
          activeRuns := activeRuns[account := activeRuns[account].(cycleId := cycleId)];
          return true;
        }
        accounts := accounts - {account};
      }
      NoMatch(activeRuns, runId, cycleId);
      found := false;
    }

    method SetActiveCycle(runId: string, cycleId: string) returns (found: bool)
      requires UniqueRuns(activeRuns)
      modifies this
      ensures UniqueRuns(activeRuns)
      ensures activeRuns == WithCycle(old(activeRuns), runId, Some(cycleId))
      ensures found <==> Holds(old(activeRuns), runId)
    {
      found := SetLease(runId, Some(cycleId));
    }

    method ClearActiveCycle(runId: string) returns (found: bool)
      requires UniqueRuns(activeRuns)
      modifies this
      ensures UniqueRuns(activeRuns)
      ensures activeRuns == WithCycle(old(activeRuns), runId, None)
      ensures found <==> Holds(old(activeRuns), runId)
    {
      found := SetLease(runId, None);
    }

    predicate IsExecuting(account: string)
      reads this
    {
      account in activeRuns
    }

    method ValidateActiveCycle(cycleId: Option<string>) returns (valid: bool)
      ensures valid <==> Validates(activeRuns, cycleId)
      ensures cycleId == Some("") ==> !valid
    {
      if cycleId.None? || cycleId.value == "" {
        return false;
      }
      var accounts := activeRuns.Keys;
      while accounts != {}
        invariant accounts <= activeRuns.Keys
        invariant forall a | a in activeRuns && a !in accounts :: activeRuns[a].cycleId != cycleId
        decreases |accounts|
      {
        var account := PickOne(accounts);
        if activeRuns[account].cycleId == cycleId {
          return true;
        }
        accounts := accounts - {account};
      }
      valid := false;
    }

    method ReleaseOwnership(account: string)
      requires UniqueRuns(activeRuns)
      modifies this
      ensures UniqueRuns(activeRuns)
      ensures activeRuns == old(activeRuns) - {account}
    {
      if account !in activeRuns {
        assert activeRuns == activeRuns - {account};
        return;
      }
      activeRuns := activeRuns - {account};
    }

    // Ownership is kept: a frozen account stays in the table.
    method MarkUncertain(account: string)
      requires UniqueRuns(activeRuns)
      modifies this
      ensures UniqueRuns(activeRuns)
      ensures activeRuns == MarkedUncertain(old(activeRuns), account)
      ensures account in old(activeRuns) ==>
        account in activeRuns && activeRuns[account] == old(activeRuns)[account].(state := Frozen)
    {
      if account !in activeRuns {
        return;
      }
      activeRuns := activeRuns[account := activeRuns[account].(state := Frozen)];
    }
  }
}
