// One betting cycle, and the run that repeats cycles: retries after known
// failures, autonomous rebets after successes, and a full stop on an unknown
// outcome. What the page and the simulator answer is an input.

module BetCycles {
  import opened Common
  import Engine = ConstraintEngine
  import opened RunOrchestration

  // The answer of a call that may throw.
  datatype Try<+T> = Ok(value: T) | Throws

  // A click whose command may not even be built.
  datatype Click = Untranslated | Thrown | Clicked

  datatype Placement = Returned | AtomicAbort | Fault

  datatype Observed = SawSuccess | SawFailure | SawOther

  // Everything one cycle is told by the outside world.
  datatype World = World(
    authorized: bool,
    sessionActive: Try<bool>,
    openBetslip: Click,
    restoredOdds: Try<Option<real>>,
    liveOdds: Try<Option<real>>,
    balance: Try<real>,
    currentStake: Try<Option<real>>,
    onConfirmScreen: bool,
    keystrokes: seq<Try<()>>,
    interrupt: Try<bool>,         // an odds banner ends the cycle, accepted or not
    translate: Try<()>,
    place: Placement,
    observe: Try<Observed>)

  datatype Policy = Policy(
    engine: Engine.Policy,
    rebetIncrement: real,
    autoAcceptOdds: bool,
    maxRebets: nat,
    maxRetries: nat)

  datatype Phase = Created | Refused | StakePreparation | ReadyToSubmit | Processing | Settlement

  datatype Status = Success | Failed | Aborted | Uncertain

  // A stake: a number, or the outcome of computing with none.
  type Amount = Engine.Amount

  // What a cycle makes of its own end: what it returns, or a fault, judged by
  // the phase it happened in.
  function StatusOf(r: Try<Status>, state: Phase): Status {
    match r
    case Ok(status) => status
    case Throws => if state == Processing || state == Settlement then Uncertain else Failed
  }

  // ---------- The commands of a cycle ----------

  datatype CommandKind = OpenBetslip | Keystroke | AcceptOdds | PlaceBet

  // A command as the simulator got it; `honoured` says that its guard let it through.
  datatype Issued = Issued(kind: CommandKind, idempotent: bool, stake: Option<Amount>, honoured: bool)

  // What the adapter's payload says about repeating the command.
  function Mark(kind: CommandKind): Option<bool> {
    match kind
    case OpenBetslip => Some(true)
    case Keystroke => Some(true)
    case AcceptOdds => Some(true)
    case PlaceBet => Some(false)
  }

  // The payload's mark wins over the one the cycle asks for.
  function ToCommand(kind: CommandKind, forceIdempotent: bool): bool {
    if Mark(kind).Some? then Mark(kind).value else forceIdempotent
  }

  // The simulator lets a non-idempotent command through only under the cycle's lease.
  function Command(kind: CommandKind, forceIdempotent: bool, stake: Option<Amount>, leased: bool): Issued {
    var idempotent := ToCommand(kind, forceIdempotent);
    Issued(kind, idempotent, stake, idempotent || leased)
  }

  const OPENING := Command(OpenBetslip, true, None, false)
  const TYPING := Command(Keystroke, true, None, false)
  const ACCEPTING := Command(AcceptOdds, true, None, false)

  function NonIdempotent(issued: seq<Issued>): nat {
    if issued == [] then 0
    else NonIdempotent(issued[..|issued| - 1]) + if issued[|issued| - 1].idempotent then 0 else 1
  }

  datatype Report = Report(status: Status, index: nat, issued: seq<Issued>)

  // ---------- One cycle ----------

  // The stake of the bet that follows `index` successes.
  function Intended(stake: real, increment: real, index: nat): real {
    if increment > 0.0 && index >= 2 then stake + (index - 1) as real * increment else stake
  }

  // The odds a cycle works with, unless reading them ends it.
  function OddsFor(w: World, rebet: bool): Try<Option<real>> {
    if rebet then w.restoredOdds
    else if w.openBetslip != Clicked then Throws
    else if w.liveOdds.Throws? then Ok(None)
    else w.liveOdds
  }

  // The stake is sized, for its place in the series of bets.
  function Sized(pol: Policy, w: World, rebet: bool, index: nat): Option<Amount> {
    if w.sessionActive != Ok(true) || OddsFor(w, rebet).Throws? || w.balance.Throws? then None
    else
      match Engine.Decide(pol.engine, w.balance.value, OddsFor(w, rebet).value)
      case Unresolvable => None
      case Authorized(stake) => Some(Engine.Number(Intended(stake, pol.rebetIncrement, index)))
      case NotANumber => Some(Engine.NoNumber)
  }

  // The stake field holds something else.
  predicate MustType(w: World, stake: Amount) {
    !w.onConfirmScreen && !(stake.Number? && w.currentStake == Ok(Some(stake.value)))
  }

  predicate Typed(w: World, stake: Amount) {
    MustType(w, stake) ==> forall i | 0 <= i < |w.keystrokes| :: w.keystrokes[i].Ok?
  }

  // The stake with which a cycle reaches submission, if it gets there.
  function Prepared(pol: Policy, w: World, rebet: bool, index: nat): Option<Amount> {
    match Sized(pol, w, rebet, index)
    case None => None
    case Some(stake) => if Entered(w, stake) then Some(stake) else None
  }

  // The stake a step that may throw came up with.
  function Got(stake: Try<Option<Amount>>): Option<Amount> { if stake.Ok? then stake.value else None }

  // How many keystrokes are sent: all, or up to the first that throws.
  function Pressed(keystrokes: seq<Try<()>>): nat {
    if keystrokes == [] then 0 else if keystrokes[0].Throws? then 1 else 1 + Pressed(keystrokes[1..])
  }

  function Presses(n: nat): seq<Issued> { seq(n, _ => TYPING) }

  function OpeningTrace(w: World, rebet: bool): seq<Issued> {
    if w.sessionActive != Ok(true) || rebet || w.openBetslip.Untranslated? then [] else [OPENING]
  }

  // The commands that enter a sized stake.
  function EntryTrace(pol: Policy, w: World, stake: Amount): seq<Issued> {
    if w.currentStake.Throws? then []
    else
      (if MustType(w, stake) then Presses(Pressed(w.keystrokes)) else []) +
      (if Typed(w, stake) && w.interrupt == Ok(true) && pol.autoAcceptOdds then [ACCEPTING] else [])
  }

  // The commands issued before submission.
  function PreparationTrace(pol: Policy, w: World, rebet: bool, index: nat): seq<Issued> {
    OpeningTrace(w, rebet) +
    match Sized(pol, w, rebet, index)
    case None => []
    case Some(stake) => EntryTrace(pol, w, stake)
  }

  // A sized stake is entered without fault, and no banner interrupts.
  predicate Entered(w: World, stake: Amount) { w.currentStake.Ok? && Typed(w, stake) && w.interrupt == Ok(false) }

  // The simulator turns a command without lease away quietly.
  function PlacementOf(w: World, leased: bool): Placement { if leased then w.place else Returned }

  // The outcome of a submitted bet, when the cycle learns it.
  function KnownOutcome(w: World, leased: bool): Option<Status> {
    match PlacementOf(w, leased)
    case AtomicAbort => Some(Failed)
    case Fault => None
    case Returned =>
      if w.observe == Ok(SawSuccess) then Some(Success)
      else if w.observe == Ok(SawFailure) then Some(Failed)
      else None
  }

  // What one cycle reports: nothing non-idempotent is issued before submission,
  // and after it only a known outcome is reported as anything but uncertain.
  function ReportOf(w: World, before: seq<Issued>, prepared: Option<Amount>, index: nat, leased: bool): Report {
    match prepared
    case None => Report(Failed, index, before)
    case Some(stake) =>
      if w.translate.Throws? then Report(Uncertain, index, before)
      else
        var known := KnownOutcome(w, leased);
        Report(if known.Some? then known.value else Uncertain, index,
               before + [Command(PlaceBet, false, Some(stake), leased)])
  }

  function CycleReport(pol: Policy, w: World, rebet: bool, index: nat, leased: bool): Report {
    if !w.authorized then Report(Aborted, index, [])
    else ReportOf(w, PreparationTrace(pol, w, rebet, index), Prepared(pol, w, rebet, index), index, leased)
  }

  // ---------- Properties of one cycle ----------

  lemma {:induction false} AllIdempotent(issued: seq<Issued>)
    requires forall i | 0 <= i < |issued| :: issued[i].idempotent
    ensures NonIdempotent(issued) == 0
  {
    if issued != [] { AllIdempotent(issued[..|issued| - 1]); }
  }

  lemma PreparationIsIdempotent(pol: Policy, w: World, rebet: bool, index: nat)
    ensures IsHarmless(PreparationTrace(pol, w, rebet, index))
  {
  }

  // The stake of the bet a report says was submitted.
  function Placed(r: Report): Option<Amount> {
    if r.issued != [] && r.issued[|r.issued| - 1].kind == PlaceBet then r.issued[|r.issued| - 1].stake else None
  }

  // The world shows that the bet was placed; a bet without lease comes back at
  // once, so only the observation counts.
  predicate ShowsSuccess(w: World, leased: bool) {
    w.observe == Ok(SawSuccess) && (leased ==> w.place == Returned)
  }

  // ... that it was not placed: the page refused it as changed, or showed a failure.
  predicate ShowsFailure(w: World, leased: bool) {
    (leased && w.place == AtomicAbort) || (w.observe == Ok(SawFailure) && (leased ==> w.place == Returned))
  }

  // At most one command that must not be repeated, the last one issued; and the
  // report tells the outcome of that command exactly when the world shows it.
  ghost predicate TellsTheTruth(w: World, leased: bool, r: Report) {
    && NonIdempotent(r.issued) <= 1
    && (forall i | 0 <= i < |r.issued| - 1 :: r.issued[i].idempotent)
    && (NonIdempotent(r.issued) == 1 <==> Placed(r).Some?)
    && (Placed(r).Some? ==>
          && r.issued[|r.issued| - 1].honoured == leased
          && (r.status == Success <==> ShowsSuccess(w, leased))
          && (r.status == Failed <==> ShowsFailure(w, leased))
          && (r.status == Uncertain <==> !ShowsSuccess(w, leased) && !ShowsFailure(w, leased)))
    && (r.status == Success ==> Placed(r).Some?)
    && (r.status == Aborted <==> !w.authorized)
    && (r.status == Uncertain && Placed(r).None? ==> w.translate.Throws?)
  }

  ghost predicate IsHarmless(issued: seq<Issued>) {
    forall i | 0 <= i < |issued| :: issued[i].idempotent && issued[i].kind != PlaceBet
  }

  lemma QuietReportTellsTheTruth(w: World, leased: bool, r: Report)
    requires IsHarmless(r.issued) && r.status != Success && (r.status == Aborted <==> !w.authorized)
    requires r.status == Uncertain ==> w.translate.Throws?
    ensures TellsTheTruth(w, leased, r) && Placed(r) == None
  {
    AllIdempotent(r.issued);
  }

  lemma SubmissionTellsTheTruth(w: World, leased: bool, before: seq<Issued>, stake: Amount, r: Report)
    requires w.authorized && IsHarmless(before) && r.issued == before + [Command(PlaceBet, false, Some(stake), leased)]
    requires r.status == if KnownOutcome(w, leased).Some? then KnownOutcome(w, leased).value else Uncertain
    ensures TellsTheTruth(w, leased, r) && Placed(r) == Some(stake)
  {
    var place := Command(PlaceBet, false, Some(stake), leased);
    AllIdempotent(before);
    assert r.issued[..|before|] == before && r.issued[|before|] == place;
    assert NonIdempotent(r.issued) == 1;
  }

  lemma ReportTellsTheTruth(w: World, before: seq<Issued>, prepared: Option<Amount>, index: nat, leased: bool)
    requires w.authorized && IsHarmless(before)
    ensures var r := ReportOf(w, before, prepared, index, leased);
      && TellsTheTruth(w, leased, r) && r.index == index
      && Placed(r) == if w.translate.Ok? then prepared else None
  {
    var r := ReportOf(w, before, prepared, index, leased);
    if prepared.Some? && w.translate.Ok? {
      SubmissionTellsTheTruth(w, leased, before, prepared.value, r);
    } else {
      QuietReportTellsTheTruth(w, leased, r);
    }
  }

  lemma CycleTellsTheTruth(pol: Policy, w: World, rebet: bool, index: nat, leased: bool)
    ensures var r := CycleReport(pol, w, rebet, index, leased);
      && TellsTheTruth(w, leased, r) && r.index == index
      && Placed(r) == if w.authorized && w.translate.Ok? then Prepared(pol, w, rebet, index) else None
  {
    PreparationIsIdempotent(pol, w, rebet, index);
    if !w.authorized {
      QuietReportTellsTheTruth(w, leased, Report(Aborted, index, []));
    } else {
      ReportTellsTheTruth(w, PreparationTrace(pol, w, rebet, index), Prepared(pol, w, rebet, index), index, leased);
    }
  }

  // The stake the engine authorises in this world, for these odds.
  predicate Affords(pol: Policy, w: World, odds: Option<real>) {
    w.balance.Ok? && !Engine.Decide(pol.engine, w.balance.value, odds).Unresolvable?
  }

  // The stake field already holds the sized stake.
  predicate IsOnSlip(w: World, sized: Option<Amount>) {
    sized.Some? && sized.value.Number? && w.currentStake == Ok(Some(sized.value.value))
  }

  // The account is logged in, the betslip opened and the odds read, or restored,
  // and a stake is authorised for them.
  predicate IsSizeable(pol: Policy, w: World, rebet: bool) {
    && w.sessionActive == Ok(true)
    && if rebet then w.restoredOdds.Ok? && Affords(pol, w, w.restoredOdds.value)
       else w.openBetslip == Clicked && Affords(pol, w, if w.liveOdds.Ok? then w.liveOdds.value else None)
  }

  lemma SizedIff(pol: Policy, w: World, rebet: bool, index: nat)
    ensures Sized(pol, w, rebet, index).Some? <==> IsSizeable(pol, w, rebet)
  {
  }

  // A bet goes out exactly when every check before it passed: besides the above,
  // the stake is on the slip or gets typed without fault, and no banner asks for attention.
  lemma BetGoesOutIff(pol: Policy, w: World, rebet: bool, index: nat, leased: bool)
    ensures Placed(CycleReport(pol, w, rebet, index, leased)).Some? <==>
      && w.authorized && IsSizeable(pol, w, rebet) && w.currentStake.Ok?
      && (|| w.onConfirmScreen || IsOnSlip(w, Sized(pol, w, rebet, index))
          || forall i | 0 <= i < |w.keystrokes| :: w.keystrokes[i].Ok?)
      && w.interrupt == Ok(false) && w.translate.Ok?
  {
    CycleTellsTheTruth(pol, w, rebet, index, leased);
    SizedIff(pol, w, rebet, index);
    PreparedIff(pol, w, rebet, index, Sized(pol, w, rebet, index));
  }

  lemma PreparedIff(pol: Policy, w: World, rebet: bool, index: nat, sized: Option<Amount>)
    requires sized == Sized(pol, w, rebet, index)
    ensures Prepared(pol, w, rebet, index).Some? <==>
      && sized.Some? && w.currentStake.Ok?
      && (|| w.onConfirmScreen || IsOnSlip(w, sized)
          || forall i | 0 <= i < |w.keystrokes| :: w.keystrokes[i].Ok?)
      && w.interrupt == Ok(false)
  {
  }

  // The betslip is opened at most once, first, and only by a cycle that is not a rebet.
  lemma OpensBetslipIff(pol: Policy, w: World, rebet: bool, index: nat, leased: bool)
    ensures var issued := CycleReport(pol, w, rebet, index, leased).issued;
      && (issued != [] && issued[0].kind == OpenBetslip <==>
            w.authorized && w.sessionActive == Ok(true) && !rebet && !w.openBetslip.Untranslated?)
      && forall i | 0 < i < |issued| :: issued[i].kind != OpenBetslip
  {
  }

  // While the stake has to be typed, a keystroke that fails is the last thing issued.
  lemma FaultEndsTyping(pol: Policy, w: World, rebet: bool, index: nat, leased: bool, i: nat)
    requires w.authorized && IsSizeable(pol, w, rebet) && w.currentStake.Ok?
    requires !w.onConfirmScreen && !IsOnSlip(w, Sized(pol, w, rebet, index))
    requires i < |w.keystrokes| && w.keystrokes[i].Throws? && forall j | 0 <= j < i :: w.keystrokes[j].Ok?
    ensures var issued := CycleReport(pol, w, rebet, index, leased).issued;
      && |issued| == i + 1 + (if rebet then 0 else 1)
      && issued[|issued| - 1].kind == Keystroke
  {
    SizedIff(pol, w, rebet, index);
    PressedAt(w.keystrokes, i);
  }

  // A banner about changed odds is accepted exactly when one shows up after the
  // stake is entered and the policy says so.
  lemma BannerIsAcceptedIff(pol: Policy, w: World, rebet: bool, index: nat, leased: bool)
    ensures (exists c :: c in CycleReport(pol, w, rebet, index, leased).issued && c.kind == AcceptOdds) <==>
      && w.authorized && IsSizeable(pol, w, rebet) && w.currentStake.Ok?
      && Typed(w, Sized(pol, w, rebet, index).value)
      && w.interrupt == Ok(true) && pol.autoAcceptOdds
  {
    SizedIff(pol, w, rebet, index);
    var sized := Sized(pol, w, rebet, index);
    if w.authorized && sized.Some? {
      EntryAccepts(pol, w, sized.value);
    }
  }

  lemma EntryAccepts(pol: Policy, w: World, stake: Amount)
    ensures (exists c :: c in EntryTrace(pol, w, stake) && c.kind == AcceptOdds) <==>
      w.currentStake.Ok? && Typed(w, stake) && w.interrupt == Ok(true) && pol.autoAcceptOdds
  {
    if w.currentStake.Ok? && Typed(w, stake) && w.interrupt == Ok(true) && pol.autoAcceptOdds {
      assert ACCEPTING in EntryTrace(pol, w, stake);
    }
  }

  // A world in which a cycle gets as far as submitting.
  function ReadyWorld(balance: real, odds: real): World {
    World(true, Ok(true), Clicked, Ok(Some(odds)), Ok(Some(odds)), Ok(balance), Ok(None), true, [],
          Ok(false), Ok(()), Returned, Ok(SawSuccess))
  }

  // A prepared stake is a number within the policy's limit, or neither matters.
  predicate RespectsLimit(pol: Policy, stake: Amount) {
    stake.Number? && pol.engine.maxStake.Some? ==> stake.value <= pol.engine.maxStake.value
  }

  // The increment is added after the limit check. All stakes of the bet that
  // follows `index` successes stay within the limit exactly when the largest
  // stake the policy can authorise does so with the increments due.
  lemma IncrementEscapesLimitIff(pol: Policy, rebet: bool, index: nat)
    ensures (forall w | Prepared(pol, w, rebet, index).Some? ::
               RespectsLimit(pol, Prepared(pol, w, rebet, index).value))
      <==> || pol.engine.maxStake.None?
           || !Engine.CanAuthorize(pol.engine)
           || (Engine.HasTop(pol.engine) &&
               Intended(Engine.TopStake(pol.engine), pol.rebetIncrement, index) <= pol.engine.maxStake.value)
  {
    if pol.engine.maxStake.Some? && Engine.CanAuthorize(pol.engine) {
      var top := Engine.TopStake(pol.engine);
      var balance, odds := Engine.TopIsReached(pol.engine);
      var w := ReadyWorld(balance, odds);
      assert Prepared(pol, w, rebet, index) == Some(Engine.Number(Intended(top, pol.rebetIncrement, index)));
    }
    forall w | Prepared(pol, w, rebet, index).Some? && Prepared(pol, w, rebet, index).value.Number?
      ensures Engine.CanAuthorize(pol.engine)
      ensures var stake := Prepared(pol, w, rebet, index).value.value;
        Engine.HasTop(pol.engine) ==> stake <= Intended(Engine.TopStake(pol.engine), pol.rebetIncrement, index)
    {
      Engine.NothingAboveTop(pol.engine, w.balance.value, OddsFor(w, rebet).value);
    }
  }

  const HUNDRED_AT_MOST := Policy(
    Engine.Policy(Engine.ProfitTarget, None, Some(100.0), false, None, 1.0, false, 0.0, Some(100.0)), 10.0, false, 5, 0)

  // A limit of 100, and the third bet of a series placed at 110.
  lemma ThirdBetPassesTheLimit(rebet: bool)
    ensures Prepared(HUNDRED_AT_MOST, ReadyWorld(1000.0, 2.0), rebet, 2) == Some(Engine.Number(110.0))
  {
    Engine.FloorIs(100.0, 100);
    assert Engine.Snap(HUNDRED_AT_MOST.engine, 100.0) == 100.0;
  }

  // How far a stake can pass the limit, at its place in the series; and when it is no number.
  predicate IsWithinBound(pol: Policy, stake: Amount, index: nat) {
    match stake
    case Number(value) =>
      && 0.0 < value
      && (pol.engine.maxStake.Some? ==> value <= Intended(pol.engine.maxStake.value, pol.rebetIncrement, index))
    case NoNumber => pol.engine.increment == 0.0 || Engine.LacksNumber(pol.engine)
  }

  lemma StakeBound(pol: Policy, w: World, rebet: bool, index: nat)
    requires Prepared(pol, w, rebet, index).Some?
    ensures IsWithinBound(pol, Prepared(pol, w, rebet, index).value, index)
  {
  }

  ghost predicate IsFreshCycle(runs: Runs, cycleId: string) {
    cycleId != "" && forall a | a in runs :: runs[a].cycleId != Some(cycleId)
  }

  lemma {:induction false} PressedAt(keystrokes: seq<Try<()>>, i: nat)
    requires i <= |keystrokes| && forall j | 0 <= j < i :: keystrokes[j].Ok?
    requires i < |keystrokes| ==> keystrokes[i].Throws?
    ensures Pressed(keystrokes) == if i < |keystrokes| then i + 1 else i
    decreases i
  {
    if i > 0 { PressedAt(keystrokes[1..], i - 1); }
  }

  class BetCycle {
    const runId: string
    const cycleId: string
    const policy: Policy
    const isRebetContinuation: bool
    const rebetSequenceIndex: nat
    var state: Phase
    // Every command handed to the simulator, in order.
    var issued: seq<Issued>

    constructor (runId: string, cycleId: string, policy: Policy, isRebet: bool, index: nat)
      ensures this.runId == runId && this.cycleId == cycleId && this.policy == policy
      ensures isRebetContinuation == isRebet && rebetSequenceIndex == index && state == Created && issued == []
    {
      this.runId, this.cycleId, this.policy := runId, cycleId, policy;
      isRebetContinuation, rebetSequenceIndex, state, issued := isRebet, index, Created, [];
    }

    // Hands a command to the simulator, whose guard asks the orchestrator.
    method Issue(kind: CommandKind, forceIdempotent: bool, stake: Option<Amount>, orchestrator: RunOrchestrator)
      requires cycleId != ""
      modifies this`issued
      ensures issued == old(issued) +
        [Command(kind, forceIdempotent, stake, Validates(orchestrator.activeRuns, Some(cycleId)))]
    {
      var idempotent := ToCommand(kind, forceIdempotent);
      var honoured := true;
      if !idempotent {
        honoured := orchestrator.ValidateActiveCycle(Some(cycleId));
      }
      issued := issued + [Issued(kind, idempotent, stake, honoured)];
    }

    // Reads and sizes the stake.
    method Size(w: World, orchestrator: RunOrchestrator) returns (stake: Try<Option<Amount>>)
      requires cycleId != ""
      modifies this`state, this`issued
      ensures Got(stake) == Sized(policy, w, isRebetContinuation, rebetSequenceIndex)
      ensures issued == old(issued) + OpeningTrace(w, isRebetContinuation)
      ensures state in {old(state), StakePreparation}
    {
      if w.sessionActive.Throws? { return Throws; }
      if !w.sessionActive.value { return Ok(None); }
      var odds := None;
      if isRebetContinuation {
        if w.restoredOdds.Throws? { return Throws; }
        odds := w.restoredOdds.value;
      } else {
        if w.openBetslip.Untranslated? { return Throws; }
        Issue(OpenBetslip, true, None, orchestrator);
        if w.openBetslip.Thrown? { return Throws; }
        if w.liveOdds.Ok? {
          odds := w.liveOdds.value;
        }
      }
      if w.balance.Throws? { return Throws; }
      state := StakePreparation;
      var decision := Engine.Evaluate(policy.engine, w.balance.value, odds);
      match decision {
        case Unresolvable =>
          return Ok(None);
        case NotANumber =>
          return Ok(Some(Engine.NoNumber));
        case Authorized(calculated) =>
          var stakeAmount := calculated;
          if policy.rebetIncrement > 0.0 && rebetSequenceIndex >= 2 {
            var multiplier := rebetSequenceIndex - 1;
            stakeAmount := stakeAmount + multiplier as real * policy.rebetIncrement;
          }
          assert stakeAmount == Intended(calculated, policy.rebetIncrement, rebetSequenceIndex);
          return Ok(Some(Engine.Number(stakeAmount)));
      }
    }

    // Types the stake, keystroke by keystroke.
    method TypeStake(w: World, orchestrator: RunOrchestrator) returns (ok: bool)
      requires cycleId != ""
      modifies this`issued
      ensures ok <==> forall i | 0 <= i < |w.keystrokes| :: w.keystrokes[i].Ok?
      ensures issued == old(issued) + Presses(Pressed(w.keystrokes))
    {
      for i := 0 to |w.keystrokes|
        invariant forall j | 0 <= j < i :: w.keystrokes[j].Ok?
        invariant issued == old(issued) + Presses(i)
      {
        Issue(Keystroke, true, None, orchestrator);
        assert Presses(i + 1) == Presses(i) + [TYPING];
        if w.keystrokes[i].Throws? {
          PressedAt(w.keystrokes, i);
          return false;
        }
      }
      PressedAt(w.keystrokes, |w.keystrokes|);
      ok := true;
    }

    // Enters the stake and looks for interrupts.
    method Enter(w: World, stakeAmount: Amount, orchestrator: RunOrchestrator) returns (ok: Try<bool>)
      requires cycleId != ""
      modifies this`state, this`issued
      ensures ok == Ok(true) <==> Entered(w, stakeAmount)
      ensures issued == old(issued) + EntryTrace(policy, w, stakeAmount)
      ensures state in {old(state), ReadyToSubmit} && (ok == Ok(true) ==> state == ReadyToSubmit)
    {
      if w.currentStake.Throws? {
        return Throws;
      }
      if !w.onConfirmScreen && !(stakeAmount.Number? && w.currentStake.value == Some(stakeAmount.value)) {
        var typed := TypeStake(w, orchestrator);
        if !typed {
          return Throws;
        }
      }
      state := ReadyToSubmit;
      if w.interrupt.Throws? {
        return Throws;
      }
      if w.interrupt.value && policy.autoAcceptOdds {
        Issue(AcceptOdds, true, None, orchestrator);
      }
      ok := Ok(!w.interrupt.value);
    }

    // Everything before submission; nothing here can place a bet.
    method Prepare(w: World, orchestrator: RunOrchestrator) returns (stake: Try<Option<Amount>>)
      requires cycleId != ""
      modifies this`state, this`issued
      ensures Got(stake) == Prepared(policy, w, isRebetContinuation, rebetSequenceIndex)
      ensures issued == old(issued) + PreparationTrace(policy, w, isRebetContinuation, rebetSequenceIndex)
      ensures Got(stake).Some? ==> state == ReadyToSubmit
      ensures Got(stake).None? ==> state in {old(state), StakePreparation, ReadyToSubmit}
    {
      stake := Size(w, orchestrator);
      if Got(stake).None? {
        return;
      }
      var ok := Enter(w, stake.value.value, orchestrator);
      if ok.Throws? {
        return Throws;
      }
      if !ok.value {
        return Ok(None);
      }
    }

    // What the cycle tries: every fault in it surfaces here.
    method Attempt(w: World, orchestrator: RunOrchestrator) returns (r: Try<Status>)
      requires UniqueRuns(orchestrator.activeRuns) && IsFreshCycle(orchestrator.activeRuns, cycleId)
      requires issued == [] && state == Created
      modifies this`state, this`issued, orchestrator
      ensures var leased := Holds(old(orchestrator.activeRuns), runId);
        var report := ReportOf(w, PreparationTrace(policy, w, isRebetContinuation, rebetSequenceIndex),
          Prepared(policy, w, isRebetContinuation, rebetSequenceIndex), rebetSequenceIndex, leased);
        report == Report(StatusOf(r, state), rebetSequenceIndex, issued)
      ensures StatusOf(r, state) == Uncertain ==> state in {Processing, Settlement}
      ensures UniqueRuns(orchestrator.activeRuns)
      ensures WithCycle(orchestrator.activeRuns, runId, None) == WithCycle(old(orchestrator.activeRuns), runId, None)
    {
      var stake := Prepare(w, orchestrator);
      if stake.Throws? {
        return Throws;
      }
      if stake.value.None? {
        return Ok(Failed);
      }
      ghost var before := orchestrator.activeRuns;
      var _ := orchestrator.SetActiveCycle(runId, cycleId);
      SetThenClear(before, runId, cycleId);
      state := Processing;
      if w.translate.Throws? {
        return Throws;
      }
      LeaseIsHeld(before, runId, cycleId);
      Issue(PlaceBet, false, stake.value, orchestrator);
      r := Settle(w, issued[|issued| - 1].honoured);
    }

    // What became of the submission.
    method Settle(w: World, honoured: bool) returns (r: Try<Status>)
      requires state == Processing
      modifies this`state
      ensures var known := KnownOutcome(w, honoured);
        StatusOf(r, state) == if known.Some? then known.value else Uncertain
      ensures state in {Processing, Settlement}
    {
      if honoured {
        match w.place {
          case AtomicAbort => return Ok(Failed);
          case Fault => return Throws;
          case Returned =>
        }
      }
      state := Settlement;
      match w.observe {
        case Throws => r := Throws;
        case Ok(SawSuccess) => r := Ok(Success);
        case Ok(SawFailure) => r := Ok(Failed);
        case Ok(SawOther) => r := Ok(Uncertain);
      }
    }

    // A fault is classified by the phase it happened in; the lease is held
    // exactly around the submission, and always given back.
    method Execute(w: World, orchestrator: RunOrchestrator) returns (r: Report)
      requires UniqueRuns(orchestrator.activeRuns) && IsFreshCycle(orchestrator.activeRuns, cycleId)
      requires issued == [] && state == Created
      modifies this`state, this`issued, orchestrator
      ensures r == CycleReport(policy, w, isRebetContinuation, rebetSequenceIndex,
        Holds(old(orchestrator.activeRuns), runId))
      ensures r.issued == issued
      ensures UniqueRuns(orchestrator.activeRuns)
      ensures orchestrator.activeRuns ==
        if w.authorized then WithCycle(old(orchestrator.activeRuns), runId, None) else old(orchestrator.activeRuns)
      ensures r.status == Uncertain ==> state in {Processing, Settlement}
    {
      if !w.authorized {
        state := Refused;
        return Report(Aborted, rebetSequenceIndex, issued);
      }
      var result := Attempt(w, orchestrator);
      var status;
      match result {
        case Ok(returned) =>
          status := returned;
        case Throws =>
          if state == Processing || state == Settlement {
            status := Uncertain;
          } else {
            status := Failed;
          }
      }
      var _ := orchestrator.ClearActiveCycle(runId);
      r := Report(status, rebetSequenceIndex, issued);
    }
  }

  // While the lease is set, the simulator honours this cycle's id if and only
  // if the run owns an account.
  lemma LeaseIsHeld(runs: Runs, runId: string, cycleId: string)
    requires IsFreshCycle(runs, cycleId)
    ensures Validates(WithCycle(runs, runId, Some(cycleId)), Some(cycleId)) <==> Holds(runs, runId)
  {
    var after := WithCycle(runs, runId, Some(cycleId));
    if Holds(runs, runId) {
      var a :| a in runs && runs[a].runId == runId;
      assert after[a].cycleId == Some(cycleId);
    }
    if Validates(after, Some(cycleId)) {
      var a :| a in after && after[a].cycleId == Some(cycleId);
      assert runs[a].runId == runId;
    }
  }

  lemma SetThenClear(runs: Runs, runId: string, cycleId: string)
    ensures WithCycle(WithCycle(runs, runId, Some(cycleId)), runId, None) == WithCycle(runs, runId, None)
  {
  }
}

module AutomationRuns {
  import opened Common
  import opened RunOrchestration
  import opened BetCycles

  datatype RunStatus = Active | Completed | RunAborted | RunUncertain

  // The world of a whole run, cycle by cycle.
  datatype Scenario = Scenario(
    world: nat -> World,
    cycleId: nat -> string,
    rebetClick: nat -> bool,      // the click on "Rebet" after cycle k succeeds
    dismissal: nat -> bool)       // dismissing the success overlay after cycle k

  datatype RunState = RunState(
    status: RunStatus,
    cycles: nat,
    successes: nat,
    failures: nat,
    nextIsRebet: bool,
    log: seq<Report>)

  const STARTED := RunState(Active, 0, 0, 0, false, [])

  // What the status of a cycle means for the run.
  function Concluded(pol: Policy, st: RunState, status: Status, rebetClicked: bool, dismissed: bool): RunState {
    match status
    case Uncertain => st.(status := RunUncertain)
    case Aborted => st.(status := RunAborted)
    case Failed =>
      if st.failures + 1 <= pol.maxRetries then st.(failures := st.failures + 1)
      else st.(failures := st.failures + 1, status := RunAborted)
    case Success =>
      var st := st.(successes := st.successes + 1, failures := 0);
      if st.successes < 1 + pol.maxRebets then
        if rebetClicked then st.(nextIsRebet := true) else st.(status := Completed)
      else st.(status := if dismissed then Completed else RunAborted)
  }

  // The run after a cycle with this report.
  function Reported(pol: Policy, st: RunState, r: Report, rebetClicked: bool, dismissed: bool): RunState {
    Concluded(pol, st.(cycles := st.cycles + 1, nextIsRebet := false, log :=
      st.log + [r]), r.status, rebetClicked, dismissed)
  }

  // What the cycle that starts in a state reports.
  datatype Cycles = Cycles(report: RunState -> Report)

  function CyclesOf(pol: Policy, sc: Scenario, leased: bool): Cycles {
    Cycles((st: RunState) => CycleReport(pol, sc.world(st.cycles), st.nextIsRebet, st.successes, leased))
  }

  // One turn of the run loop.
  function NextCycle(pol: Policy, sc: Scenario, cycles: Cycles, st: RunState): RunState {
    Reported(pol, st, cycles.report(st), sc.rebetClick(st.cycles), sc.dismissal(st.cycles))
  }

  // A state in which the loop still turns has bets and retries left.
  predicate CanContinue(pol: Policy, st: RunState) {
    st.status == Active ==> st.successes <= pol.maxRebets && st.failures <= pol.maxRetries
  }

  function Finish(pol: Policy, sc: Scenario, cycles: Cycles, st: RunState): (end: RunState)
    requires CanContinue(pol, st)
    ensures end.status != Active
    decreases st.status == Active, 1 + pol.maxRebets - st.successes, 1 + pol.maxRetries - st.failures
  {
    if st.status != Active then st else Finish(pol, sc, cycles, NextCycle(pol, sc, cycles, st))
  }

  // ---------- What holds of every run ----------

  function Successes(log: seq<Report>): nat {
    if log == [] then 0 else Successes(log[..|log| - 1]) + if log[|log| - 1].status == Success then 1 else 0
  }

  // Report k tells the truth about cycle k, and only the last can be uncertain:
  // a bet whose outcome the world did not show is the last thing that happens.
  ghost predicate UnknownOnlyLast(sc: Scenario, leased: bool, st: RunState) {
    && (forall k | 0 <= k < |st.log| :: TellsTheTruth(sc.world(k), leased, st.log[k]))
    && (forall k | 0 <= k < |st.log| && st.log[k].status == Uncertain :: k == |st.log| - 1 && st.status == RunUncertain)
    && (st.status == RunUncertain ==> st.log != [] && st.log[|st.log| - 1].status == Uncertain)
  }

  // The most cycles that `bets` bets can take.
  function Budget(pol: Policy, bets: nat): nat {
    if bets == 0 then 0 else Budget(pol, bets - 1) + 1 + pol.maxRetries
  }

  lemma {:induction false} BudgetIsProduct(pol: Policy, bets: nat)
    ensures Budget(pol, bets) == bets * (1 + pol.maxRetries)
  {
    if bets > 0 { BudgetIsProduct(pol, bets - 1); }
  }

  // Cycle counts stay under the budget of bets and retries.
  ghost predicate WithinBudget(pol: Policy, st: RunState) {
    && st.cycles == |st.log| && st.successes == Successes(st.log)
    && st.successes <= 1 + pol.maxRebets && st.failures <= 1 + pol.maxRetries
    && (st.status == Completed ==> st.successes >= 1)
    && (st.status == Active ==> st.cycles <= Budget(pol, st.successes) + st.failures)
    && st.cycles <= Budget(pol, 1 + pol.maxRebets)
  }

  // Each report carries its place in the series of bets.
  ghost predicate StakesInSeries(pol: Policy, log: seq<Report>) {
    forall i | 0 <= i < |log| ::
      && log[i].index == Successes(log[..i])
      && (Placed(log[i]).Some? ==> IsWithinBound(pol, Placed(log[i]).value, log[i].index))
  }

  lemma {:induction false} BudgetStep(pol: Policy, bets: nat, more: nat)
    requires bets <= more
    ensures Budget(pol, bets + 1) == Budget(pol, bets) + 1 + pol.maxRetries
    ensures Budget(pol, bets) <= Budget(pol, more)
    decreases more
  {
    if bets < more { BudgetStep(pol, bets, more - 1); }
  }

  lemma {:induction false} SuccessesOfAppend(log: seq<Report>, r: Report)
    ensures Successes(log + [r]) == Successes(log) + if r.status == Success then 1 else 0
  {
  }

  lemma {:induction false} ReportKeepsBudget(pol: Policy, st: RunState, r: Report, clicked: bool, dismissed: bool)
    requires st.status == Active && CanContinue(pol, st) && WithinBudget(pol, st)
    ensures var next := Reported(pol, st, r, clicked, dismissed);
      CanContinue(pol, next) && WithinBudget(pol, next)
  {
    SuccessesOfAppend(st.log, r);
    BudgetStep(pol, st.successes, pol.maxRebets);
    BudgetStep(pol, pol.maxRebets, pol.maxRebets);
  }

  lemma {:induction false} ReportKeepsUnknownLast(
      pol: Policy, sc: Scenario, leased: bool, st: RunState, r: Report, clicked: bool, dismissed: bool)
    requires st.status == Active && UnknownOnlyLast(sc, leased, st)
    requires TellsTheTruth(sc.world(|st.log|), leased, r)
    ensures UnknownOnlyLast(sc, leased, Reported(pol, st, r, clicked, dismissed))
  {
    var next := Reported(pol, st, r, clicked, dismissed);
    assert next.log == st.log + [r];
    forall k | 0 <= k < |next.log| ensures TellsTheTruth(sc.world(k), leased, next.log[k]) {
      assert k < |st.log| ==> next.log[k] == st.log[k];
    }
  }

  lemma {:induction false} AppendKeepsSeries(pol: Policy, log: seq<Report>, r: Report)
    requires StakesInSeries(pol, log) && r.index == Successes(log)
    requires Placed(r).Some? ==> IsWithinBound(pol, Placed(r).value, r.index)
    ensures StakesInSeries(pol, log + [r])
  {
    var longer := log + [r];
    assert longer[..|log|] == log;
    forall i | 0 <= i < |log| ensures longer[i] == log[i] && longer[..i] == log[..i] {}
  }

  ghost predicate RunInvariant(pol: Policy, sc: Scenario, leased: bool, st: RunState) {
    CanContinue(pol, st) && UnknownOnlyLast(sc, leased, st) && WithinBudget(pol, st) && StakesInSeries(pol, st.log)
  }

  // What a run relies on: cycles that tell the truth, in their place, and
  // within the bounds for their stake.
  ghost predicate IsSound(pol: Policy, sc: Scenario, leased: bool, st: RunState, r: Report) {
    && TellsTheTruth(sc.world(st.cycles), leased, r)
    && r.index == st.successes
    && (Placed(r).Some? ==> IsWithinBound(pol, Placed(r).value, r.index))
  }

  lemma CyclesAreSound(pol: Policy, sc: Scenario, leased: bool, st: RunState)
    ensures IsSound(pol, sc, leased, st, CyclesOf(pol, sc, leased).report(st))
  {
    var w := sc.world(st.cycles);
    CycleTellsTheTruth(pol, w, st.nextIsRebet, st.successes, leased);
    if Prepared(pol, w, st.nextIsRebet, st.successes).Some? {
      StakeBound(pol, w, st.nextIsRebet, st.successes);
    }
  }

  lemma {:induction false} ReportKeepsInvariant(
      pol: Policy, sc: Scenario, leased: bool, st: RunState, r: Report, clicked: bool, dismissed: bool)
    requires st.status == Active && RunInvariant(pol, sc, leased, st) && IsSound(pol, sc, leased, st, r)
    ensures RunInvariant(pol, sc, leased, Reported(pol, st, r, clicked, dismissed))
  {
    var next := Reported(pol, st, r, clicked, dismissed);
    assert next.log == st.log + [r];
    AppendKeepsSeries(pol, st.log, r);
    assert StakesInSeries(pol, next.log);
    ReportKeepsBudget(pol, st, r, clicked, dismissed);
    ReportKeepsUnknownLast(pol, sc, leased, st, r, clicked, dismissed);
  }

  lemma {:induction false} SoundRunIsSafe(pol: Policy, sc: Scenario, leased: bool, cycles: Cycles, st: RunState)
    requires RunInvariant(pol, sc, leased, st)
    requires forall s: RunState :: IsSound(pol, sc, leased, s, cycles.report(s))
    ensures RunInvariant(pol, sc, leased, Finish(pol, sc, cycles, st))
    decreases st.status == Active, 1 + pol.maxRebets - st.successes, 1 + pol.maxRetries - st.failures
  {
    if st.status == Active {
      assert IsSound(pol, sc, leased, st, cycles.report(st));
      ReportKeepsInvariant(pol, sc, leased, st, cycles.report(st), sc.rebetClick(st.cycles), sc.dismissal(st.cycles));
      SoundRunIsSafe(pol, sc, leased, cycles, NextCycle(pol, sc, cycles, st));
    }
  }

  // Every run ends; its cycles stay within the budget of bets and retries; each
  // cycle issued at most one command that must not be repeated, and none was
  // issued after one whose outcome is unknown; completion means 1 to 1 + rebets
  // successes; every stake respects the limit plus the increments due.
  lemma {:induction false} EveryRunIsSafe(pol: Policy, sc: Scenario, leased: bool, st: RunState)
    requires RunInvariant(pol, sc, leased, st)
    ensures RunInvariant(pol, sc, leased, Finish(pol, sc, CyclesOf(pol, sc, leased), st))
  {
    var cycles := CyclesOf(pol, sc, leased);
    forall s: RunState ensures IsSound(pol, sc, leased, s, cycles.report(s)) {
      CyclesAreSound(pol, sc, leased, s);
    }
    SoundRunIsSafe(pol, sc, leased, cycles, st);
  }

  // The budget of a whole run: (1 + rebets) * (1 + retries) cycles.
  lemma {:induction false} EveryRunIsBounded(pol: Policy, sc: Scenario, leased: bool, end: RunState)
    requires RunInvariant(pol, sc, leased, end)
    ensures end.cycles <= (1 + pol.maxRebets) * (1 + pol.maxRetries)
  {
    BudgetIsProduct(pol, 1 + pol.maxRebets);
  }

  lemma StartIsSafe(pol: Policy, sc: Scenario, leased: bool)
    ensures RunInvariant(pol, sc, leased, STARTED)
  {
  }

  // Cycle k's bet went out under the lease, and then failed in the simulator, or
  // came back without a success or a failure to be seen.
  predicate IsUnresolved(w: World) {
    w.place == Fault || (w.place == Returned && w.observe != Ok(SawSuccess) && w.observe != Ok(SawFailure))
  }

  // Over every run nothing follows such a cycle.
  lemma {:induction false} UnresolvedBetEndsRun(pol: Policy, sc: Scenario, k: nat)
    requires k < |Finish(pol, sc, CyclesOf(pol, sc, true), STARTED).log|
    requires var end := Finish(pol, sc, CyclesOf(pol, sc, true), STARTED);
      Placed(end.log[k]).Some? && IsUnresolved(sc.world(k))
    ensures var end := Finish(pol, sc, CyclesOf(pol, sc, true), STARTED);
      end.status == RunUncertain && k == |end.log| - 1
  {
    StartIsSafe(pol, sc, true);
    EveryRunIsSafe(pol, sc, true, STARTED);
    var end := Finish(pol, sc, CyclesOf(pol, sc, true), STARTED);
    assert TellsTheTruth(sc.world(k), true, end.log[k]);
  }

  // ---------- A run read off its reports ----------

  // The failures since the last success.
  function FailuresInARow(log: seq<Report>): nat {
    if log == [] || log[|log| - 1].status == Success then 0
    else FailuresInARow(log[..|log| - 1]) + if log[|log| - 1].status == Failed then 1 else 0
  }

  predicate EndsInSuccess(log: seq<Report>) { log != [] && log[|log| - 1].status == Success }

  // What a run makes of its reports so far.
  function StatusAfter(pol: Policy, sc: Scenario, log: seq<Report>): RunStatus {
    if log == [] then Active
    else
      var n := |log| - 1;
      match log[n].status
      case Uncertain => RunUncertain
      case Aborted => RunAborted
      case Failed => if FailuresInARow(log) > pol.maxRetries then RunAborted else Active
      case Success =>
        if Successes(log) > pol.maxRebets then (if sc.dismissal(n) then Completed else RunAborted)
        else if sc.rebetClick(n) then Active else Completed
  }

  // The state is what the reports make it; every cycle but the last went on, and
  // each was told whether it continues a success and how many came before.
  ghost predicate FollowsReports(pol: Policy, sc: Scenario, leased: bool, st: RunState) {
    && st.cycles == |st.log| && st.successes == Successes(st.log) && st.failures == FailuresInARow(st.log)
    && st.status == StatusAfter(pol, sc, st.log)
    && (st.status == Active ==> (st.nextIsRebet <==> EndsInSuccess(st.log)))
    && forall k | 0 <= k < |st.log| :: IsCycleOf(pol, sc, leased, st.log, k)
  }

  ghost predicate IsCycleOf(pol: Policy, sc: Scenario, leased: bool, log: seq<Report>, k: nat)
    requires k < |log|
  {
    && StatusAfter(pol, sc, log[..k]) == Active
    && log[k] == CycleReport(pol, sc.world(k), EndsInSuccess(log[..k]), Successes(log[..k]), leased)
  }

  lemma {:induction false} CountsFollow(pol: Policy, sc: Scenario, st: RunState, r: Report)
    requires st.status == Active && CanContinue(pol, st)
    requires st.cycles == |st.log| && st.successes == Successes(st.log) && st.failures == FailuresInARow(st.log)
    ensures var next := Reported(pol, st, r, sc.rebetClick(st.cycles), sc.dismissal(st.cycles));
      && next.log == st.log + [r] && next.cycles == |next.log|
      && next.successes == Successes(next.log) && next.failures == FailuresInARow(next.log)
      && next.status == StatusAfter(pol, sc, next.log)
      && (next.status == Active ==> (next.nextIsRebet <==> r.status == Success))
  {
    assert (st.log + [r])[..|st.log|] == st.log;
  }

  lemma {:induction false} CyclesFollow(pol: Policy, sc: Scenario, leased: bool, log: seq<Report>, r: Report)
    requires forall k | 0 <= k < |log| :: IsCycleOf(pol, sc, leased, log, k)
    requires StatusAfter(pol, sc, log) == Active
    requires r == CycleReport(pol, sc.world(|log|), EndsInSuccess(log), Successes(log), leased)
    ensures forall k | 0 <= k < |log| + 1 :: IsCycleOf(pol, sc, leased, log + [r], k)
  {
    var longer := log + [r];
    assert longer[..|log|] == log;
    forall k | 0 <= k < |longer| ensures IsCycleOf(pol, sc, leased, longer, k) {
      if k < |log| {
        assert IsCycleOf(pol, sc, leased, log, k);
        assert longer[..k] == log[..k];
      }
    }
  }

  lemma {:induction false} ReportFollows(pol: Policy, sc: Scenario, leased: bool, st: RunState, r: Report)
    requires st.status == Active && CanContinue(pol, st) && FollowsReports(pol, sc, leased, st)
    requires r == CycleReport(pol, sc.world(st.cycles), st.nextIsRebet, st.successes, leased)
    ensures FollowsReports(pol, sc, leased, Reported(pol, st, r, sc.rebetClick(st.cycles), sc.dismissal(st.cycles)))
  {
    CountsFollow(pol, sc, st, r);
    CyclesFollow(pol, sc, leased, st.log, r);
  }

  // Every run is determined by its reports: it goes on after a failure as long as
  // retries are left and after a success as long as rebets are left and the click
  // succeeds; an aborted or unknown cycle ends it.
  lemma {:induction false} EveryRunFollowsReports(pol: Policy, sc: Scenario, leased: bool, st: RunState)
    requires CanContinue(pol, st) && FollowsReports(pol, sc, leased, st)
    ensures FollowsReports(pol, sc, leased, Finish(pol, sc, CyclesOf(pol, sc, leased), st))
    decreases st.status == Active, 1 + pol.maxRebets - st.successes, 1 + pol.maxRetries - st.failures
  {
    if st.status == Active {
      var cycles := CyclesOf(pol, sc, leased);
      ReportFollows(pol, sc, leased, st, cycles.report(st));
      EveryRunFollowsReports(pol, sc, leased, NextCycle(pol, sc, cycles, st));
    }
  }

  // ---------- The bound is met ----------

  const NEVER_READY := World(true, Ok(false), Untranslated, Throws, Throws, Throws, Throws, false, [], Throws,
    Throws, Fault, Throws)

  // A scenario in which every bet fails as often as it may before it succeeds.
  function Worst(pol: Policy, good: World, cycleId: nat -> string): Scenario {
    Scenario(
      (k: nat) => if k % (1 + pol.maxRetries) == pol.maxRetries then good else NEVER_READY,
      cycleId, (k: nat) => true, (k: nat) => true)
  }

  // A world in which a bet goes through at any place of the series.
  ghost predicate AlwaysSucceeds(pol: Policy, good: World) {
    forall rebet, index, leased :: CycleReport(pol, good, rebet, index, leased).status == Success
  }

  // Such a world exists.
  lemma ReadyWorldSucceeds()
    ensures AlwaysSucceeds(HUNDRED_AT_MOST, ReadyWorld(1000.0, 2.0))
  {
    var good := ReadyWorld(1000.0, 2.0);
    Engine.FloorIs(100.0, 100);
    assert Engine.Snap(HUNDRED_AT_MOST.engine, 100.0) == 100.0;
    forall rebet, index, leased ensures CycleReport(HUNDRED_AT_MOST, good, rebet, index, leased).status == Success {
      assert Prepared(HUNDRED_AT_MOST, good, rebet, index).Some?;
    }
  }

  lemma ModuloStep(s: nat, f: nat, n: nat)
    requires f < n
    ensures (s * n + f) % n == f
  {
    var q := (s * n + f) / n;
    assert (s - q) * n == (s * n + f) % n - f;
    MultipleIsFar(s - q, n);
  }

  lemma {:induction false} BoundIsMet(
      pol: Policy, good: World, cycleId: nat -> string, st: RunState, leased: bool)
    requires AlwaysSucceeds(pol, good)
    requires st.status == Active && CanContinue(pol, st)
    requires st.cycles == Budget(pol, st.successes) + st.failures
    ensures var sc := Worst(pol, good, cycleId);
      var end := Finish(pol, sc, CyclesOf(pol, sc, leased), st);
      end.status == Completed && end.cycles == Budget(pol, 1 + pol.maxRebets)
    decreases 1 + pol.maxRebets - st.successes, 1 + pol.maxRetries - st.failures
  {
    var sc := Worst(pol, good, cycleId);
    var next := NextCycle(pol, sc, CyclesOf(pol, sc, leased), st);
    BudgetIsProduct(pol, st.successes);
    ModuloStep(st.successes, st.failures, 1 + pol.maxRetries);
    BudgetStep(pol, st.successes, st.successes);
    if st.failures < pol.maxRetries {
      assert sc.world(st.cycles) == NEVER_READY;
      BoundIsMet(pol, good, cycleId, next, leased);
    } else if st.successes < pol.maxRebets {
      BoundIsMet(pol, good, cycleId, next, leased);
    }
  }

  // ---------- Rebet progression ----------

  function SuccessStakes(log: seq<Report>): seq<real> {
    if log == [] then []
    else
      var last := log[|log| - 1];
      SuccessStakes(log[..|log| - 1]) +
      if last.status == Success && Placed(last).Some?
        && Placed(last).value.Number? then [Placed(last).value.value] else []
  }

  function Sum(s: seq<real>): real {
    if s == [] then 0.0 else Sum(s[..|s| - 1]) + s[|s| - 1]
  }

  // The series of stakes that a constant calculated stake gives.
  function Series(stake: real, increment: real, bets: nat): seq<real> {
    seq(bets, i requires 0 <= i < bets => Intended(stake, increment, i))
  }

  ghost predicate StakesAre(pol: Policy, log: seq<Report>, stake: real) {
    forall i | 0 <= i < |log| ::
      && log[i].index == Successes(log[..i])
      && (log[i].status == Success ==>
            Placed(log[i]) == Some(Engine.Number(Intended(stake, pol.rebetIncrement, log[i].index))))
  }

  // The stakes of the successful bets are then the series, bet by bet.
  lemma {:induction false} SuccessesFollowSeries(pol: Policy, log: seq<Report>, stake: real)
    requires StakesAre(pol, log, stake)
    ensures SuccessStakes(log) == Series(stake, pol.rebetIncrement, Successes(log))
    decreases |log|
  {
    if log != [] {
      var shorter := log[..|log| - 1];
      forall i | 0 <= i < |shorter| ensures shorter[i] == log[i] && shorter[..i] == log[..i] {}
      SuccessesFollowSeries(pol, shorter, stake);
      assert log[|log| - 1].index == Successes(log[..|log| - 1]);
    }
  }

  // Whatever its cycles are told, they work with this calculated stake.
  ghost predicate CalculatesAlways(pol: Policy, sc: Scenario, stake: real) {
    forall k: nat, rebet, index | Prepared(pol, sc.world(k), rebet, index).Some? ::
      Prepared(pol, sc.world(k), rebet, index).value == Engine.Number(Intended(stake, pol.rebetIncrement, index))
  }

  lemma {:induction false} AppendKeepsStakes(pol: Policy, log: seq<Report>, r: Report, stake: real)
    requires StakesAre(pol, log, stake) && r.index == Successes(log)
    requires r.status == Success ==>
      Placed(r) == Some(Engine.Number(Intended(stake, pol.rebetIncrement, r.index)))
    ensures StakesAre(pol, log + [r], stake)
  {
    var longer := log + [r];
    assert longer[..|log|] == log;
    forall i | 0 <= i < |log| ensures longer[i] == log[i] && longer[..i] == log[..i] {}
  }

  lemma {:induction false} ReportKeepsStakes(
      pol: Policy, st: RunState, r: Report, stake: real, clicked: bool, dismissed: bool)
    requires st.status == Active && st.successes == Successes(st.log) && StakesAre(pol, st.log, stake)
    requires r.index == st.successes
    requires r.status == Success ==> Placed(r) == Some(Engine.Number(Intended(stake, pol.rebetIncrement, r.index)))
    ensures var next := Reported(pol, st, r, clicked, dismissed);
      next.successes == Successes(next.log) && StakesAre(pol, next.log, stake)
  {
    var next := Reported(pol, st, r, clicked, dismissed);
    assert next.log == st.log + [r];
    SuccessesOfAppend(st.log, r);
    AppendKeepsStakes(pol, st.log, r, stake);
    assert StakesAre(pol, next.log, stake);
  }

  // What the cycles of a run with a constant calculated stake report.
  ghost predicate StakeIsAlways(pol: Policy, cycles: Cycles, stake: real) {
    forall s: RunState ::
      && cycles.report(s).index == s.successes
      && (cycles.report(s).status == Success ==>
            Placed(cycles.report(s)) == Some(Engine.Number(Intended(stake, pol.rebetIncrement, s.successes))))
  }

  lemma CalculatedIsAlways(pol: Policy, sc: Scenario, leased: bool, stake: real)
    requires CalculatesAlways(pol, sc, stake)
    ensures StakeIsAlways(pol, CyclesOf(pol, sc, leased), stake)
  {
    forall s: RunState ensures var r := CyclesOf(pol, sc, leased).report(s);
      && r.index == s.successes
      && (r.status == Success ==> Placed(r) == Some(Engine.Number(Intended(stake, pol.rebetIncrement, s.successes))))
    {
      CycleTellsTheTruth(pol, sc.world(s.cycles), s.nextIsRebet, s.successes, leased);
    }
  }

  lemma {:induction false} ConstantStakes(pol: Policy, sc: Scenario, cycles: Cycles, st: RunState, stake: real)
    requires CanContinue(pol, st) && StakeIsAlways(pol, cycles, stake)
    requires st.successes == Successes(st.log) && StakesAre(pol, st.log, stake)
    ensures var end := Finish(pol, sc, cycles, st);
      end.successes == Successes(end.log) && StakesAre(pol, end.log, stake)
    decreases st.status == Active, 1 + pol.maxRebets - st.successes, 1 + pol.maxRetries - st.failures
  {
    if st.status == Active {
      ReportKeepsStakes(pol, st, cycles.report(st), stake, sc.rebetClick(st.cycles), sc.dismissal(st.cycles));
      ConstantStakes(pol, sc, cycles, NextCycle(pol, sc, cycles, st), stake);
    }
  }

  // T stakes and n * (T - 1) * (T - 2) / 2 of increments.
  function Total(stake: real, increment: real, bets: nat): real {
    bets as real * stake + increment * ((bets - 1) * (bets - 2)) as real / 2.0
  }

  lemma {:induction false} SeriesTotal(stake: real, increment: real, bets: nat)
    requires bets >= 1 && increment > 0.0
    ensures Sum(Series(stake, increment, bets)) == Total(stake, increment, bets)
    decreases bets
  {
    var series := Series(stake, increment, bets);
    assert series[..bets - 1] == Series(stake, increment, bets - 1);
    if bets == 1 {
      assert series[..0] == [];
    } else {
      SeriesTotal(stake, increment, bets - 1);
      TotalStep(stake, increment, bets);
    }
  }

  lemma TotalStep(stake: real, increment: real, bets: nat)
    requires bets >= 2 && increment > 0.0
    ensures Total(stake, increment, bets - 1) + Intended(stake, increment, bets - 1) == Total(stake, increment, bets)
  {
  }

  // A run with T successes at a constant calculated stake X has placed, in all,
  // T * X + n * (T - 1) * (T - 2) / 2.
  lemma {:induction false} RunTotal(pol: Policy, sc: Scenario, leased: bool, stake: real)
    requires CalculatesAlways(pol, sc, stake) && pol.rebetIncrement > 0.0
    requires Finish(pol, sc, CyclesOf(pol, sc, leased), STARTED).successes >= 1
    ensures var end := Finish(pol, sc, CyclesOf(pol, sc, leased), STARTED);
      Sum(SuccessStakes(end.log)) == Total(stake, pol.rebetIncrement, end.successes)
  {
    var cycles := CyclesOf(pol, sc, leased);
    CalculatedIsAlways(pol, sc, leased, stake);
    ConstantStakes(pol, sc, cycles, STARTED, stake);
    var end := Finish(pol, sc, cycles, STARTED);
    SuccessesFollowSeries(pol, end.log, stake);
    SeriesTotal(stake, pol.rebetIncrement, end.successes);
  }

  // ---------- The run object ----------

  class AutomationRun {
    const runId: string
    const policy: Policy
    var cycleCount: nat
    var successCount: nat
    var consecutiveFailures: nat
    var isNextCycleRebet: bool
    var state: RunStatus
    var log: seq<Report>

    function State(): RunState
      reads this
    {
      RunState(state, cycleCount, successCount, consecutiveFailures, isNextCycleRebet, log)
    }

    constructor (runId: string, policy: Policy)
      ensures this.runId == runId && this.policy == policy && State() == STARTED
    {
      this.runId, this.policy := runId, policy;
      cycleCount, successCount, consecutiveFailures := 0, 0, 0;
      isNextCycleRebet, state, log := false, Active, [];
    }

    // One turn of the loop: a cycle, and what its result means for the run.
    method RunCycle(sc: Scenario, orchestrator: RunOrchestrator)
      requires UniqueRuns(orchestrator.activeRuns)
      requires IsFreshCycle(orchestrator.activeRuns, sc.cycleId(cycleCount))
      modifies this, orchestrator
      ensures State() ==
        NextCycle(policy, sc, CyclesOf(policy, sc, Holds(old(orchestrator.activeRuns), runId)), old(State()))
      ensures UniqueRuns(orchestrator.activeRuns)
      ensures orchestrator.activeRuns in
        {old(orchestrator.activeRuns), WithCycle(old(orchestrator.activeRuns), runId, None)}
    {
      var k := cycleCount;
      var w := sc.world(k);
      cycleCount := cycleCount + 1;
      var cycle := new BetCycle(runId, sc.cycleId(k), policy, isNextCycleRebet, successCount);
      isNextCycleRebet := false;
      var result := cycle.Execute(w, orchestrator);
      log := log + [result];
      Conclude(result.status, sc.rebetClick(k), sc.dismissal(k));
    }

    // What the status of a cycle means for the run.
    method Conclude(status: Status, rebetClicked: bool, dismissed: bool)
      modifies this`state, this`consecutiveFailures, this`successCount, this`isNextCycleRebet
      ensures State() == Concluded(policy, old(State()), status, rebetClicked, dismissed)
    {
      match status {
        case Uncertain =>
          state := RunUncertain;
        case Aborted =>
          state := RunAborted;
        case Failed =>
          consecutiveFailures := consecutiveFailures + 1;
          if consecutiveFailures > policy.maxRetries {
            state := RunAborted;
          }
        case Success =>
          successCount := successCount + 1;
          consecutiveFailures := 0;
          var targetTotalBets := 1 + policy.maxRebets;
          if successCount < targetTotalBets {
            if rebetClicked {
              isNextCycleRebet := true;
            } else {
              state := Completed;
            }
          } else {
            // A failure to dismiss the overlay surfaces as an aborted run.
            state := if dismissed then Completed else RunAborted;
          }
      }
    }

    method Start(sc: Scenario, orchestrator: RunOrchestrator)
      requires UniqueRuns(orchestrator.activeRuns)
      requires forall k: nat :: IsFreshCycle(orchestrator.activeRuns, sc.cycleId(k))
      requires State() == STARTED
      modifies this, orchestrator
      ensures State() ==
        Finish(policy, sc, CyclesOf(policy, sc, Holds(old(orchestrator.activeRuns), runId)), STARTED)
      ensures RunInvariant(policy, sc, Holds(old(orchestrator.activeRuns), runId), State())
      ensures orchestrator.activeRuns in
        {old(orchestrator.activeRuns), WithCycle(old(orchestrator.activeRuns), runId, None)}
    {
      ghost var leased := Holds(orchestrator.activeRuns, runId);
      ghost var cycles := CyclesOf(policy, sc, leased);
      while state == Active
        invariant UniqueRuns(orchestrator.activeRuns)
        invariant orchestrator.activeRuns in
          {old(orchestrator.activeRuns), WithCycle(old(orchestrator.activeRuns), runId, None)}
        invariant CanContinue(policy, State())
        invariant Finish(policy, sc, cycles, State()) == Finish(policy, sc, cycles, STARTED)
        decreases state == Active, 1 + policy.maxRebets - successCount, 1 + policy.maxRetries - consecutiveFailures
      {
        ClearingKeepsOwners(old(orchestrator.activeRuns), runId);
        RunCycle(sc, orchestrator);
      }
      EveryRunIsSafe(policy, sc, leased, STARTED);
    }
  }

  lemma ClearingKeepsOwners(runs: Runs, runId: string)
    ensures var cleared := WithCycle(runs, runId, None);
      && (Holds(cleared, runId) <==> Holds(runs, runId))
      && WithCycle(cleared, runId, None) == cleared
      && forall c :: IsFreshCycle(runs, c) ==> IsFreshCycle(cleared, c)
  {
    var cleared := WithCycle(runs, runId, None);
    if Holds(runs, runId) {
      var a :| a in runs && runs[a].runId == runId;
      assert cleared[a].runId == runId;
    }
  }
}
