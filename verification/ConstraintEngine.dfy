// The constraint engine: turns a pricing policy, the account balance and the
// live odds into one authorised stake, or none.

module ConstraintEngine {
  import opened Common

  datatype Mode = Fixed | ProfitTarget | OtherMode

  // What is missing from the policy is None.
  datatype Policy = Policy(
    mode: Mode,
    baseStake: Option<real>,
    targetProfit: Option<real>,
    clampToBalance: bool,          // ResolutionStrategy is CLAMP_THEN_REDUCE_PROFIT
    minimumAcceptableProfit: Option<real>,
    increment: real,               // zero also when none is set
    roundNumbers: bool,            // SelectionPreference is ROUND_NUMBERS
    minimumStake: real,            // zero when no minimum is set
    maxStake: Option<real>)

  // A number, or the result of computing with none.
  datatype Amount = Number(value: real) | NoNumber

  // `NotANumber` is an authorised stake that is no number.
  datatype Decision = Unresolvable | Authorized(stake: real) | NotANumber

  function Times(a: real, b: real): real { a * b }

  function AmountOf(x: Option<real>): Amount { if x.Some? then Number(x.value) else NoNumber }

  // The stake the policy asks for before any limit.
  function Requested(pol: Policy, odds: Option<real>): Option<Amount> {
    match pol.mode
    case Fixed => Some(AmountOf(pol.baseStake))
    case ProfitTarget =>
      if odds.None? || odds.value <= 1.0 then None
      else if pol.targetProfit.None? then Some(NoNumber)
      else Some(Number(pol.targetProfit.value / (odds.value - 1.0)))
    case OtherMode => None
  }

  function ProfitOf(stake: real, odds: Option<real>): real {
    if odds.Some? && odds.value != 0.0 then Times(stake, odds.value - 1.0) else 0.0
  }

  // What the balance would earn is enough.
  predicate AcceptsProfit(pol: Policy, profit: real) {
    pol.minimumAcceptableProfit.Some? ==> profit >= pol.minimumAcceptableProfit.value
  }

  // The stake the balance can pay for; no comparison with no number succeeds.
  function Funded(pol: Policy, balance: real, odds: Option<real>, raw: Amount): Option<Amount> {
    if raw.NoNumber? || raw.value <= balance then Some(raw)
    else if pol.clampToBalance && AcceptsProfit(pol, ProfitOf(balance, odds)) then Some(Number(balance))
    else None
  }

  // `k` whole platform increments.
  function Grid(k: int, increment: real): real { Times(k as real, increment) }

  function Steps(pol: Policy, raw: real): int
    requires pol.increment != 0.0
  {
    (if pol.roundNumbers then raw / pol.increment + 0.5 else raw / pol.increment).Floor
  }

  // The stake in whole platform increments.
  function Snap(pol: Policy, raw: real): real
    requires pol.increment != 0.0
  {
    Grid(Steps(pol, raw), pol.increment)
  }

  predicate WithinLimits(pol: Policy, stake: real) {
    && stake > 0.0
    && (pol.minimumStake != 0.0 ==> stake >= pol.minimumStake)
    && (pol.maxStake.Some? ==> stake <= pol.maxStake.value)
  }

  // Dividing no number, or by no increment, gives no number, and no limit turns that away.
  function Decide(pol: Policy, balance: real, odds: Option<real>): Decision {
    match Requested(pol, odds)
    case None => Unresolvable
    case Some(raw) =>
      match Funded(pol, balance, odds, raw)
      case None => Unresolvable
      case Some(funded) =>
        if funded.NoNumber? || pol.increment == 0.0 then NotANumber
        else
          var stake := Snap(pol, funded.value);
          if WithinLimits(pol, stake) then Authorized(stake) else Unresolvable
  }

  method Evaluate(pol: Policy, balance: real, currentOdds: Option<real>) returns (snapshot: Decision)
    ensures snapshot == Decide(pol, balance, currentOdds)
  {
    snapshot := Unresolvable;
    var requested := NoNumber;
    match pol.mode {
      case Fixed =>
        requested := AmountOf(pol.baseStake);
      case ProfitTarget =>
        if currentOdds.None? || currentOdds.value <= 1.0 {
          return;
        }
        if pol.targetProfit.Some? {
          requested := Number(pol.targetProfit.value / (currentOdds.value - 1.0));
        }
      case OtherMode =>
        return;
    }
    if requested.NoNumber? {
      // Every comparison from here on is false.
      return NotANumber;
    }
    var rawStake := requested.value;
    if rawStake > balance {
      if !pol.clampToBalance {
        return;
      }
      rawStake := balance;
      var newProfit := ProfitOf(rawStake, currentOdds);
      if pol.minimumAcceptableProfit.Some? && newProfit < pol.minimumAcceptableProfit.value {
        return;
      }
    }
    if pol.increment == 0.0 {
      // So is every comparison with this quotient.
      return NotANumber;
    }
    var roundedStake := Grid((rawStake / pol.increment).Floor, pol.increment);
    if pol.roundNumbers {
      roundedStake := Grid((rawStake / pol.increment + 0.5).Floor, pol.increment);
    }
    if roundedStake <= 0.0 {
      return;
    }
    if pol.minimumStake != 0.0 && roundedStake < pol.minimumStake {
      return;
    }
    if pol.maxStake.Some? && roundedStake > pol.maxStake.value {
      return;
    }
    snapshot := Authorized(roundedStake);
  }

  // ---------- Arithmetic of snapping ----------

  lemma ScaleUp(a: real, b: real, m: real)
    requires m > 0.0
    ensures a < b <==> Times(a, m) < Times(b, m)
    ensures a <= b <==> Times(a, m) <= Times(b, m)
  {
  }

  lemma Distribute(a: real, b: real, m: real)
    ensures Times(a + b, m) == Times(a, m) + Times(b, m)
    ensures Times(a - b, m) == Times(a, m) - Times(b, m)
  {
  }

  lemma Halve(m: real)
    ensures Times(0.5, m) == m / 2.0 && Times(1.0, m) == m && Times(0.0, m) == 0.0
  {
  }

  lemma Quotient(x: real, m: real) returns (q: real)
    requires m > 0.0
    ensures q == x / m && Times(q, m) == x
  {
    q := x / m;
  }

  lemma ProductBounds(k: real, x: real, m: real)
    requires m > 0.0 && k <= x < k + 1.0
    ensures Times(k, m) <= Times(x, m) < Times(k, m) + m
  {
    ScaleUp(k, x, m);
    ScaleUp(x, k + 1.0, m);
    Distribute(k, 1.0, m);
    Halve(m);
  }

  // Flooring loses less than one increment; rounding is off by at most half.
  lemma SnapIsClose(pol: Policy, raw: real)
    requires pol.increment > 0.0
    ensures !pol.roundNumbers ==> raw - pol.increment < Snap(pol, raw) <= raw
    ensures pol.roundNumbers ==> raw - pol.increment / 2.0 < Snap(pol, raw) <= raw + pol.increment / 2.0
  {
    var inc := pol.increment;
    var q := Quotient(raw, inc);
    var k := Steps(pol, raw) as real;
    if pol.roundNumbers {
      ProductBounds(k, q + 0.5, inc);
      Distribute(q, 0.5, inc);
      Halve(inc);
    } else {
      ProductBounds(k, q, inc);
    }
  }

  lemma FloorIsMonotone(x: real, y: real)
    requires x <= y
    ensures x.Floor <= y.Floor
  {
  }

  lemma GridIsMonotone(j: int, k: int, increment: real)
    requires increment > 0.0
    ensures j <= k <==> Grid(j, increment) <= Grid(k, increment)
  {
  }

  lemma SnapIsPositive(pol: Policy, raw: real)
    requires pol.increment > 0.0 && Snap(pol, raw) > 0.0
    ensures raw > 0.0 && Steps(pol, raw) > 0
  {
  }

  // ---------- What an authorised stake promises ----------

  // The amount that was snapped to give an authorised stake.
  function FundedAmount(pol: Policy, balance: real, odds: Option<real>): real
    requires Decide(pol, balance, odds).Authorized?
  {
    Funded(pol, balance, odds, Requested(pol, odds).value).value.value
  }

  // What an authorised stake was asked for, and what of it the balance pays.
  function Asked(pol: Policy, odds: Option<real>): real
    requires Requested(pol, odds).Some? && Requested(pol, odds).value.Number?
  {
    Requested(pol, odds).value.value
  }

  function Paid(pol: Policy, balance: real, odds: Option<real>): real
    requires Requested(pol, odds).Some? && Requested(pol, odds).value.Number?
  {
    if Asked(pol, odds) <= balance then Asked(pol, odds) else balance
  }

  // A whole number of increments inside the policy's limits. Under flooring it
  // is never more than the balance, under rounding at most half an increment
  // more; a negative increment turns flooring into rounding up.
  lemma AuthorizedStakeIsSound(pol: Policy, balance: real, odds: Option<real>)
    requires Decide(pol, balance, odds).Authorized?
    ensures var stake := Decide(pol, balance, odds).stake;
      && 0.0 < stake
      && (pol.maxStake.Some? ==> stake <= pol.maxStake.value)
      && (pol.minimumStake != 0.0 ==> pol.minimumStake <= stake)
      && pol.increment != 0.0
      && (exists k :: (k > 0 <==> pol.increment > 0.0) && stake == Grid(k, pol.increment))
      && (pol.increment > 0.0 ==> stake <= (if pol.roundNumbers then balance + pol.increment / 2.0 else balance))
      && (pol.increment < 0.0 ==>
            stake < (if pol.roundNumbers then balance - pol.increment / 2.0 else balance - pol.increment))
  {
    var funded := FundedAmount(pol, balance, odds);
    if pol.increment > 0.0 {
      SnapIsClose(pol, funded);
      SnapIsPositive(pol, funded);
    } else {
      NegativeSnapIsClose(pol, funded);
      NegativeGrid(Steps(pol, funded), pol.increment);
    }
  }

  lemma NegativeGrid(k: int, increment: real)
    requires increment < 0.0
    ensures Grid(k, increment) == Grid(-k, -increment)
    ensures Grid(k, increment) > 0.0 <==> k < 0
  {
  }

  lemma NegativeSteps(pol: Policy, raw: real) returns (q: real, j: int)
    requires pol.increment < 0.0
    ensures Times(q, -pol.increment) == raw && q == raw / -pol.increment && -q == raw / pol.increment
    ensures j == -Steps(pol, raw) && Snap(pol, raw) == Grid(j, -pol.increment)
    ensures !pol.roundNumbers ==> q <= j as real < q + 1.0
    ensures pol.roundNumbers ==> q - 0.5 <= j as real < q + 0.5
  {
    q := Quotient(raw, -pol.increment);
    NegativeQuotient(raw, pol.increment, q);
    j := -Steps(pol, raw);
    NegativeGrid(-j, pol.increment);
  }

  lemma NegativeQuotient(raw: real, increment: real, q: real)
    requires increment < 0.0 && q == raw / -increment
    ensures raw / increment == -q
  {
  }

  lemma NegativeSnapIsClose(pol: Policy, raw: real)
    requires pol.increment < 0.0
    ensures !pol.roundNumbers ==> raw <= Snap(pol, raw) < raw - pol.increment
    ensures pol.roundNumbers ==> raw + pol.increment / 2.0 <= Snap(pol, raw) < raw - pol.increment / 2.0
  {
    var d := -pol.increment;
    var q, j := NegativeSteps(pol, raw);
    Halve(d);
    if pol.roundNumbers {
      ScaleUp(q - 0.5, j as real, d);
      ScaleUp(j as real, q + 0.5, d);
      Distribute(q, 0.5, d);
    } else {
      ScaleUp(q, j as real, d);
      ScaleUp(j as real, q + 1.0, d);
      Distribute(q, 1.0, d);
    }
  }

  // The policy asks for this amount: a fixed one, or one whose profit is the target.
  predicate IsAsked(pol: Policy, odds: Option<real>, amount: real) {
    match pol.mode
    case Fixed => pol.baseStake == Some(amount)
    case ProfitTarget => odds.Some? && odds.value > 1.0 && pol.targetProfit == Some(amount * (odds.value - 1.0))
    case OtherMode => false
  }

  // The balance pays for it, or is all that gets staked and earns enough.
  predicate IsPaid(pol: Policy, balance: real, odds: Option<real>, amount: real, paid: real) {
    if amount <= balance then paid == amount
    else
      && pol.clampToBalance && paid == balance
      && (pol.minimumAcceptableProfit.Some? ==>
            pol.minimumAcceptableProfit.value <=
              if odds.Some? && odds.value != 0.0 then balance * (odds.value - 1.0) else 0.0)
  }

  // A whole number of increments, the last one not above the amount, or the
  // one nearest to it with ties going up.
  predicate IsSnapped(pol: Policy, amount: real, k: int)
    requires pol.increment != 0.0
  {
    if pol.roundNumbers then k as real - 0.5 <= amount / pol.increment < k as real + 0.5
    else k as real <= amount / pol.increment < k as real + 1.0
  }

  lemma SnappedIff(pol: Policy, amount: real, k: int)
    requires pol.increment != 0.0
    ensures IsSnapped(pol, amount, k) <==> Steps(pol, amount) == k
  {
  }

  lemma DividesIff(amount: real, edge: real, target: real)
    requires edge > 0.0
    ensures target == amount * edge <==> target / edge == amount
  {
    assert target / edge * edge == target;
    assert amount * edge / edge == amount;
  }

  lemma AskedIff(pol: Policy, odds: Option<real>, amount: real)
    ensures IsAsked(pol, odds, amount) <==> Requested(pol, odds) == Some(Number(amount))
  {
    if pol.mode == ProfitTarget && odds.Some? && odds.value > 1.0 && pol.targetProfit.Some? {
      DividesIff(amount, odds.value - 1.0, pol.targetProfit.value);
    }
  }

  // Which stakes are authorised: the amount asked for, as far as it is paid
  // for, snapped to increments, as long as that is positive and no less than the
  // minimum and no more than the limit. Each bound is allowed itself.
  lemma AuthorizedIff(pol: Policy, balance: real, odds: Option<real>, stake: real)
    requires pol.increment != 0.0
    ensures Decide(pol, balance, odds) == Authorized(stake) <==>
      && 0.0 < stake
      && (pol.minimumStake == 0.0 || pol.minimumStake <= stake)
      && (pol.maxStake.None? || stake <= pol.maxStake.value)
      && (exists amount, paid, k :: IsAsked(pol, odds, amount) && IsPaid(pol, balance, odds, amount, paid)
            && IsSnapped(pol, paid, k) && stake == Grid(k, pol.increment))
  {
    if Decide(pol, balance, odds) == Authorized(stake) {
      var amount, paid, k := AuthorizedIsSnapped(pol, balance, odds, stake);
    }
    forall amount, paid, k | IsAsked(pol, odds, amount) && IsPaid(pol, balance, odds, amount, paid)
        && IsSnapped(pol, paid, k) && stake == Grid(k, pol.increment)
      ensures WithinLimits(pol, stake) ==> Decide(pol, balance, odds) == Authorized(stake)
    {
      SnappedIsAuthorized(pol, balance, odds, amount, paid, k);
    }
  }

  lemma AuthorizedIsSnapped(pol: Policy, balance: real, odds: Option<real>, stake: real)
      returns (amount: real, paid: real, k: int)
    requires pol.increment != 0.0 && Decide(pol, balance, odds) == Authorized(stake)
    ensures WithinLimits(pol, stake)
    ensures IsAsked(pol, odds, amount) && IsPaid(pol, balance, odds, amount, paid)
    ensures IsSnapped(pol, paid, k) && stake == Grid(k, pol.increment)
  {
    amount, paid := Asked(pol, odds), FundedAmount(pol, balance, odds);
    k := Steps(pol, paid);
    AskedIff(pol, odds, amount);
    SnappedIff(pol, paid, k);
  }

  lemma SnappedIsAuthorized(pol: Policy, balance: real, odds: Option<real>, amount: real, paid: real, k: int)
    requires pol.increment != 0.0 && IsAsked(pol, odds, amount) && IsPaid(pol, balance, odds, amount, paid)
    requires IsSnapped(pol, paid, k)
    ensures var stake := Grid(k, pol.increment);
      WithinLimits(pol, stake) ==> Decide(pol, balance, odds) == Authorized(stake)
  {
    AskedIff(pol, odds, amount);
    PaidIsFunded(pol, balance, odds, amount, paid);
    SnappedIff(pol, paid, k);
  }

  lemma PaidIsFunded(pol: Policy, balance: real, odds: Option<real>, amount: real, paid: real)
    requires IsPaid(pol, balance, odds, amount, paid)
    ensures Funded(pol, balance, odds, Number(amount)) == Some(Number(paid))
  {
    assert odds.Some? ==> Times(balance, odds.value - 1.0) == balance * (odds.value - 1.0);
  }

  // The policy lacks a number that its mode computes with.
  predicate LacksNumber(pol: Policy) {
    (pol.mode == Fixed && pol.baseStake.None?) || (pol.mode == ProfitTarget && pol.targetProfit.None?)
  }

  // The authorised stake is no number exactly when the stake or target of the
  // policy is missing, or its increment is and an amount is funded. No limit
  // then makes a difference; otherwise every authorised stake is a number.
  lemma StakeIsNotANumberIff(
      pol: Policy, balance: real, odds: Option<real>, minimum: real, maximum: Option<real>)
    ensures Decide(pol, balance, odds).NotANumber? <==>
      && pol.mode != OtherMode
      && (pol.mode == ProfitTarget ==> odds.Some? && odds.value > 1.0)
      && (|| LacksNumber(pol)
          || (pol.increment == 0.0 &&
                (Asked(pol, odds) <= balance
                 || (pol.clampToBalance && AcceptsProfit(pol, ProfitOf(balance, odds))))))
    ensures Decide(pol, balance, odds).NotANumber? ==>
      Decide(pol.(minimumStake := minimum, maxStake := maximum), balance, odds).NotANumber?
  {
  }

  // The least whole number of increments above an amount.
  function NextStep(amount: real, increment: real): int
    requires increment > 0.0
  {
    (amount / increment).Floor + 1
  }

  lemma NextStepIsLeast(amount: real, increment: real, k: int)
    requires increment > 0.0
    ensures Grid(k, increment) > amount <==> k >= NextStep(amount, increment)
  {
    var q := Quotient(amount, increment);
    ScaleUp(q, k as real, increment);
  }

  // The stake overdraws the account exactly when rounding is on and the next
  // whole increment above the balance is within half an increment of what is paid.
  lemma StakeOverdrawsIff(pol: Policy, balance: real, odds: Option<real>)
    requires pol.increment > 0.0 && Decide(pol, balance, odds).Authorized?
    ensures Decide(pol, balance, odds).stake > balance <==>
      && pol.roundNumbers
      && Grid(NextStep(balance, pol.increment), pol.increment) <= Paid(pol, balance, odds) + pol.increment / 2.0
  {
    var paid := FundedAmount(pol, balance, odds);
    var inc, m := pol.increment, NextStep(balance, pol.increment);
    NextStepIsLeast(balance, inc, Steps(pol, paid));
    var q := Quotient(paid, inc);
    if pol.roundNumbers {
      ScaleUp(m as real, q + 0.5, inc);
      Distribute(q, 0.5, inc);
      Halve(inc);
    } else {
      var b := Quotient(balance, inc);
      ScaleUp(q, b, inc);
      FloorIsMonotone(q, b);
    }
  }

  // With a negative increment it is the last whole increment within the balance
  // that what is paid must pass, by half an increment under rounding.
  lemma NegativeIncrementOverdrawsIff(pol: Policy, balance: real, odds: Option<real>)
    requires pol.increment < 0.0 && Decide(pol, balance, odds).Authorized?
    ensures var d := -pol.increment;
      Decide(pol, balance, odds).stake > balance <==>
      Paid(pol, balance, odds) > Grid((balance / d).Floor, d) + if pol.roundNumbers then d / 2.0 else 0.0
  {
    var paid := FundedAmount(pol, balance, odds);
    var d := -pol.increment;
    var m := NextStep(balance, d);
    var q, j := NegativeSteps(pol, paid);
    NextStepIsLeast(balance, d, j);
    if pol.roundNumbers {
      ScaleUp((m - 1) as real, q - 0.5, d);
      Distribute(q, 0.5, d);
      Halve(d);
    } else {
      ScaleUp((m - 1) as real, q, d);
    }
  }

  const OVERDRAWING := Policy(Fixed, Some(9.6), None, false, None, 1.0, true, 0.0, Some(100.0))

  // A stake of 9.6 on a balance of 9.7 is authorised as 10.
  lemma RoundingOverdraws()
    ensures Decide(OVERDRAWING, 9.7, None) == Authorized(10.0)
  {
    FloorIs(9.6 + 0.5, 10);
    assert Snap(OVERDRAWING, 9.6) == 10.0;
  }

  lemma FloorIs(x: real, k: int)
    requires k as real <= x < k as real + 1.0
    ensures x.Floor == k
  {
  }

  // ---------- Both signs of the increment ----------

  // The increment without its sign, and an amount counted in it.
  function Unit(pol: Policy): real { if pol.increment > 0.0 then pol.increment else -pol.increment }

  function Units(pol: Policy, raw: real): int
    requires pol.increment != 0.0
  {
    if pol.increment > 0.0 then Steps(pol, raw) else -Steps(pol, raw)
  }

  lemma SnapInUnits(pol: Policy, raw: real)
    requires pol.increment != 0.0
    ensures Unit(pol) > 0.0 && Snap(pol, raw) == Grid(Units(pol, raw), Unit(pol))
    ensures Snap(pol, raw) > 0.0 <==> Units(pol, raw) > 0
  {
    if pol.increment < 0.0 {
      NegativeGrid(Steps(pol, raw), pol.increment);
    }
  }

  // Snapping keeps within a unit, half a unit when rounding; which end is open
  // depends on the sign of the increment.
  lemma SnapIsNear(pol: Policy, raw: real)
    requires pol.increment != 0.0
    ensures var stake, u := Snap(pol, raw), Unit(pol);
      && (pol.increment > 0.0 && !pol.roundNumbers ==> raw - u < stake <= raw)
      && (pol.increment > 0.0 && pol.roundNumbers ==> raw - u / 2.0 < stake <= raw + u / 2.0)
      && (pol.increment < 0.0 && !pol.roundNumbers ==> raw <= stake < raw + u)
      && (pol.increment < 0.0 && pol.roundNumbers ==> raw - u / 2.0 <= stake < raw + u / 2.0)
  {
    if pol.increment > 0.0 { SnapIsClose(pol, raw); } else { NegativeSnapIsClose(pol, raw); }
  }

  lemma UnitsAreMonotone(pol: Policy, a: real, b: real)
    requires pol.increment != 0.0 && a <= b
    ensures Units(pol, a) <= Units(pol, b)
  {
    var u := Unit(pol);
    var x := Quotient(a, u);
    var y := Quotient(b, u);
    ScaleUp(x, y, u);
    assert x <= y;
    if pol.increment > 0.0 {
      FloorIsMonotone(if pol.roundNumbers then x + 0.5 else x, if pol.roundNumbers then y + 0.5 else y);
    } else {
      var q, j := NegativeSteps(pol, a);
      var r, k := NegativeSteps(pol, b);
      FloorIsMonotone(if pol.roundNumbers then -r + 0.5 else -r, if pol.roundNumbers then -q + 0.5 else -q);
    }
  }

  lemma UnitsArePositive(pol: Policy, raw: real)
    requires pol.increment != 0.0 && Units(pol, raw) > 0
    ensures raw > 0.0
  {
    if raw <= 0.0 {
      UnitsAreMonotone(pol, raw, 0.0);
      FloorIs(0.5, 0);
      FloorIs(0.0, 0);
    }
  }

  lemma UnitsOfGrid(pol: Policy, k: int)
    requires pol.increment != 0.0
    ensures Units(pol, Grid(k, Unit(pol))) == k
  {
    var u := Unit(pol);
    var q := Quotient(Grid(k, u), u);
    ScaleUp(q, k as real, u);
    ScaleUp(k as real, q, u);
    FloorIs(k as real, k);
    FloorIs(k as real + 0.5, k);
    if pol.increment < 0.0 {
      NegativeQuotient(Grid(k, u), pol.increment, q);
      FloorIs(-k as real, -k);
      FloorIs(-k as real + 0.5, -k);
    }
  }

  // Without clamping, the profit misses the target by less than one unit's
  // profit, and by at most half of that under rounding; a positive increment
  // errs below the target, a negative one above.
  lemma ProfitIsOnTarget(pol: Policy, balance: real, odds: real)
    requires pol.mode == ProfitTarget && Decide(pol, balance, Some(odds)).Authorized?
    requires Asked(pol, Some(odds)) <= balance
    ensures pol.increment != 0.0 && pol.targetProfit.Some?
    ensures var profit := ProfitOf(Decide(pol, balance, Some(odds)).stake, Some(odds));
      var target, step := pol.targetProfit.value, ProfitOf(Unit(pol), Some(odds));
      && (pol.increment > 0.0 && !pol.roundNumbers ==> target - step < profit <= target)
      && (pol.increment > 0.0 && pol.roundNumbers ==> target - step / 2.0 < profit <= target + step / 2.0)
      && (pol.increment < 0.0 && !pol.roundNumbers ==> target <= profit < target + step)
      && (pol.increment < 0.0 && pol.roundNumbers ==> target - step / 2.0 <= profit < target + step / 2.0)
  {
    var m, u := odds - 1.0, Unit(pol);
    var raw := Quotient(pol.targetProfit.value, m);
    var stake := Snap(pol, raw);
    SnapIsNear(pol, raw);
    Halved(u, m);
    Distribute(raw, u, m);
    Distribute(raw, u / 2.0, m);
    ScaleUp(raw - u, stake, m);
    ScaleUp(stake, raw, m);
    ScaleUp(raw, stake, m);
    ScaleUp(stake, raw + u, m);
    ScaleUp(raw - u / 2.0, stake, m);
    ScaleUp(stake, raw + u / 2.0, m);
  }

  lemma Halved(x: real, m: real)
    ensures Times(x / 2.0, m) == Times(x, m) / 2.0
  {
  }

  // A fixed stake is honoured to within one increment.
  lemma FixedStakeIsClose(pol: Policy, balance: real, odds: Option<real>)
    requires pol.mode == Fixed && Decide(pol, balance, odds).Authorized? && Asked(pol, odds) <= balance
    ensures pol.baseStake.Some?
    ensures pol.baseStake.value - Unit(pol) < Decide(pol, balance, odds).stake < pol.baseStake.value + Unit(pol)
  {
    SnapIsNear(pol, pol.baseStake.value);
  }

  // The amount a policy would snap, were its minimum profit low enough.
  function Payable(pol: Policy, balance: real, odds: real): Option<Amount> {
    match Requested(pol, Some(odds))
    case None => None
    case Some(NoNumber) => Some(NoNumber)
    case Some(Number(raw)) =>
      if raw <= balance then Some(Number(raw)) else if pol.clampToBalance then Some(Number(balance)) else None
  }

  // Snapping does not reduce this amount: it is a whole number of increments,
  // or it is rounded up.
  predicate KeepsAmount(pol: Policy, amount: real)
    requires pol.increment != 0.0
  {
    var q := amount / pol.increment;
    var fraction := q - q.Floor as real;
    if pol.increment > 0.0 then fraction == 0.0 || (pol.roundNumbers && fraction >= 0.5)
    else !pol.roundNumbers || fraction < 0.5
  }

  lemma FloorAndFraction(x: real)
    ensures var fraction := x - x.Floor as real;
      && 0.0 <= fraction < 1.0
      && (x + 0.5).Floor == x.Floor + if fraction >= 0.5 then 1 else 0
  {
    FloorIs(x + 0.5, x.Floor + if x - x.Floor as real >= 0.5 then 1 else 0);
  }

  lemma SnapKeepsIff(pol: Policy, amount: real)
    requires pol.increment != 0.0
    ensures Snap(pol, amount) >= amount <==> KeepsAmount(pol, amount)
  {
    FloorAndFraction(amount / pol.increment);
    if pol.increment > 0.0 {
      PositiveSnapKeepsIff(pol, amount);
    } else {
      NegativeSnapKeepsIff(pol, amount);
    }
  }

  lemma PositiveSnapKeepsIff(pol: Policy, amount: real)
    requires pol.increment > 0.0
    ensures Snap(pol, amount) >= amount <==> Steps(pol, amount) as real >= amount / pol.increment
  {
    var q := Quotient(amount, pol.increment);
    ScaleUp(q, Steps(pol, amount) as real, pol.increment);
  }

  lemma NegativeSnapKeepsIff(pol: Policy, amount: real)
    requires pol.increment < 0.0
    ensures Snap(pol, amount) >= amount <==> Steps(pol, amount) as real <= amount / pol.increment
  {
    var q, j := NegativeSteps(pol, amount);
    ScaleUp(q, j as real, -pol.increment);
  }

  // An authorised stake earns at least the minimum acceptable profit.
  predicate GuaranteesProfit(pol: Policy, balance: real, odds: real) {
    match Decide(pol, balance, Some(odds))
    case Unresolvable => true
    case Authorized(stake) => AcceptsProfit(pol, ProfitOf(stake, Some(odds)))
    case NotANumber => false
  }

  // The policy with this minimum acceptable profit.
  function Demanding(pol: Policy, minimum: real): Policy { pol.(minimumAcceptableProfit := Some(minimum)) }

  // The minimum acceptable profit is checked only when the stake is clamped,
  // and before it is snapped. So it is guaranteed, whatever it is, exactly when
  // nothing can be authorised, or the stake is clamped and snapping keeps it.
  lemma ProfitFloorIsGuaranteedIff(pol: Policy, balance: real, odds: real)
    requires odds > 1.0
    ensures (forall minimum :: GuaranteesProfit(Demanding(pol, minimum), balance, odds))
      <==>
      match Payable(pol, balance, odds)
      case None => true
      case Some(NoNumber) => false
      case Some(Number(paid)) =>
        pol.increment != 0.0 &&
        (|| !WithinLimits(pol, Snap(pol, paid))
         || (Asked(pol, Some(odds)) > balance && KeepsAmount(pol, balance)))
  {
    if Payable(pol, balance, odds).Some? {
      var paid := Payable(pol, balance, odds).value;
      if paid.NoNumber? || pol.increment == 0.0 {
        assert !GuaranteesProfit(Demanding(pol, ProfitOf(balance, Some(odds))), balance, odds);
      } else if Asked(pol, Some(odds)) > balance {
        ClampedFloorIff(pol, balance, odds);
      } else {
        var demand := ProfitOf(Snap(pol, paid.value), Some(odds)) + 1.0;
        UncheckedFloor(pol, demand, balance, odds);
        assert GuaranteesProfit(Demanding(pol, demand), balance, odds) <==> !WithinLimits(pol, Snap(pol, paid.value));
        forall minimum ensures !WithinLimits(pol, Snap(pol, paid.value)) ==>
          GuaranteesProfit(Demanding(pol, minimum), balance, odds)
        {
          UncheckedFloor(pol, minimum, balance, odds);
        }
      }
    }
  }

  // An unclamped stake is decided without looking at the minimum.
  lemma UncheckedFloor(pol: Policy, minimum: real, balance: real, odds: real)
    requires pol.increment != 0.0
    requires Requested(pol, Some(odds)).Some? && Requested(pol, Some(odds)).value.Number?
    requires Asked(pol, Some(odds)) <= balance
    ensures var stake := Snap(pol, Asked(pol, Some(odds)));
      Decide(Demanding(pol, minimum), balance, Some(odds)) ==
        if WithinLimits(pol, stake) then Authorized(stake) else Unresolvable
  {
  }

  lemma ClampedFloorIff(pol: Policy, balance: real, odds: real)
    requires pol.increment != 0.0 && pol.clampToBalance && odds > 1.0
    requires Requested(pol, Some(odds)).Some? && Requested(pol, Some(odds)).value.Number?
    requires Asked(pol, Some(odds)) > balance
    ensures (forall minimum :: GuaranteesProfit(Demanding(pol, minimum), balance, odds))
      <==> !WithinLimits(pol, Snap(pol, balance)) || KeepsAmount(pol, balance)
  {
    SnapKeepsIff(pol, balance);
    ScaleUp(Snap(pol, balance), balance, odds - 1.0);
    var exact := ProfitOf(balance, Some(odds));
    SameRequest(pol, exact, balance, odds);
    assert GuaranteesProfit(Demanding(pol, exact), balance, odds) <==>
      !WithinLimits(pol, Snap(pol, balance)) || KeepsAmount(pol, balance);
    forall minimum ensures !WithinLimits(pol, Snap(pol, balance)) || KeepsAmount(pol, balance) ==>
      GuaranteesProfit(Demanding(pol, minimum), balance, odds)
    {
      SameRequest(pol, minimum, balance, odds);
    }
  }

  lemma SameRequest(pol: Policy, minimum: real, balance: real, odds: real)
    ensures var other := Demanding(pol, minimum);
      && Requested(other, Some(odds)) == Requested(pol, Some(odds))
      && (pol.increment != 0.0 ==>
            && Snap(other, balance) == Snap(pol, balance)
            && WithinLimits(other, Snap(pol, balance)) == WithinLimits(pol, Snap(pol, balance)))
  {
  }

  const TARGETING_TEN := Policy(ProfitTarget, None, Some(10.0), true, Some(50.0), 1.0, false, 0.0, Some(100.0))

  // A target of 10 is authorised although a profit of 50 is demanded.
  lemma UnclampedProfitMissesTheMinimum()
    ensures Decide(TARGETING_TEN, 1000.0, Some(2.0)) == Authorized(10.0)
    ensures !GuaranteesProfit(TARGETING_TEN, 1000.0, 2.0)
  {
    FloorIs(10.0, 10);
    assert Snap(TARGETING_TEN, 10.0) == 10.0;
  }

  // ---------- The largest stake a policy can authorise ----------

  // How many units the limit allows, if there is one.
  function Cap(pol: Policy): Option<int>
    requires pol.increment != 0.0
  {
    if pol.maxStake.None? then None else Some((pol.maxStake.value / Unit(pol)).Floor)
  }

  // In units; none if not positive, and None if there is no largest.
  function TopUnits(pol: Policy): Option<int>
    requires pol.increment != 0.0
  {
    match pol.mode
    case ProfitTarget => if pol.targetProfit.Some? && pol.targetProfit.value > 0.0 then Cap(pol) else Some(0)
    case Fixed =>
      if pol.baseStake.None? then Some(0)
      else
        var own := Units(pol, pol.baseStake.value);
        if Cap(pol).None? || own <= Cap(pol).value then Some(own)
        else if pol.clampToBalance then Cap(pol) else Some(0)
    case OtherMode => Some(0)
  }

  predicate HasTop(pol: Policy) { pol.increment != 0.0 && TopUnits(pol).Some? }

  function TopStake(pol: Policy): real
    requires HasTop(pol)
  {
    Grid(TopUnits(pol).value, Unit(pol))
  }

  // Some balance and odds give a stake that is a number.
  predicate CanAuthorize(pol: Policy) {
    pol.increment != 0.0 && (TopUnits(pol).Some? ==> WithinLimits(pol, TopStake(pol)))
  }

  lemma GridWithin(k: int, limit: real, increment: real)
    requires increment > 0.0
    ensures Grid(k, increment) <= limit <==> k <= (limit / increment).Floor
  {
    NextStepIsLeast(limit, increment, k);
  }

  // No balance and no odds give a larger stake.
  lemma NothingAboveTop(pol: Policy, balance: real, odds: Option<real>)
    requires Decide(pol, balance, odds).Authorized?
    ensures CanAuthorize(pol) && (HasTop(pol) ==> Decide(pol, balance, odds).stake <= TopStake(pol))
  {
    var funded, u := FundedAmount(pol, balance, odds), Unit(pol);
    var k := Units(pol, funded);
    SnapInUnits(pol, funded);
    UnitsArePositive(pol, funded);
    if pol.maxStake.Some? {
      GridWithin(k, pol.maxStake.value, u);
    }
    if pol.mode == Fixed {
      UnitsAreMonotone(pol, funded, pol.baseStake.value);
    } else if pol.targetProfit.value <= 0.0 {
      var a := Quotient(pol.targetProfit.value, odds.value - 1.0);
      ScaleUp(0.0, a, odds.value - 1.0);
      Halve(odds.value - 1.0);
    }
    if HasTop(pol) {
      GridIsMonotone(k, TopUnits(pol).value, u);
      if pol.maxStake.Some? { GridWithin(TopUnits(pol).value, pol.maxStake.value, u); }
    }
  }

  // Under a profit target every number of units within the limits is reached.
  lemma UnitsAreReached(pol: Policy, k: int) returns (balance: real, odds: real)
    requires pol.increment != 0.0 && pol.mode == ProfitTarget && pol.targetProfit.Some? && pol.targetProfit.value > 0.0
    requires k > 0 && WithinLimits(pol, Grid(k, Unit(pol)))
    ensures odds > 1.0 && Decide(pol, balance, Some(odds)) == Authorized(Grid(k, Unit(pol)))
  {
    balance := Grid(k, Unit(pol));
    odds := 1.0 + RatioOf(pol.targetProfit.value, balance);
    UnitsOfGrid(pol, k);
    SnapInUnits(pol, balance);
  }

  // Some balance and odds give this one.
  lemma TopIsReached(pol: Policy) returns (balance: real, odds: real)
    requires HasTop(pol) && CanAuthorize(pol)
    ensures odds > 1.0 && Decide(pol, balance, Some(odds)) == Authorized(TopStake(pol))
  {
    var top, k := TopStake(pol), TopUnits(pol).value;
    GridIsMonotone(k, 0, Unit(pol));
    assert Grid(0, Unit(pol)) == 0.0;
    UnitsOfGrid(pol, k);
    if pol.mode == ProfitTarget {
      balance, odds := UnitsAreReached(pol, k);
    } else if k == Units(pol, pol.baseStake.value) {
      SnapInUnits(pol, pol.baseStake.value);
      balance, odds := pol.baseStake.value, 2.0;
    } else {
      balance := top;
      var asked := if pol.minimumAcceptableProfit.Some? then pol.minimumAcceptableProfit.value else 0.0;
      var minimum := if asked > 0.0 then asked else 1.0;
      odds := 1.0 + RatioOf(minimum, top);
      Commuted(odds - 1.0, top);
      SnapInUnits(pol, top);
      if pol.baseStake.value <= top {
        UnitsAreMonotone(pol, pol.baseStake.value, top);
      }
    }
  }

  // Without a limit a profit target authorises any stake, however large.
  lemma NoTopWithoutLimit(pol: Policy, bound: real) returns (balance: real, odds: real)
    requires pol.increment != 0.0 && TopUnits(pol).None?
    ensures Decide(pol, balance, Some(odds)).Authorized? && Decide(pol, balance, Some(odds)).stake > bound
  {
    var u := Unit(pol);
    var least := if bound > pol.minimumStake then bound else pol.minimumStake;
    var k := NextStep(if least > 0.0 then least else 0.0, u);
    NextStepIsLeast(if least > 0.0 then least else 0.0, u, k);
    GridIsMonotone(k, 0, u);
    assert Grid(0, u) == 0.0;
    balance, odds := UnitsAreReached(pol, k);
  }

  lemma Commuted(a: real, b: real)
    ensures Times(a, b) == Times(b, a)
  {
  }

  function RatioOf(a: real, b: real): (r: real)
    requires a > 0.0 && b > 0.0
    ensures r > 0.0 && Times(r, b) == a && a / r == b
  {
    RatioFacts(a, b);
    a / b
  }

  lemma RatioFacts(a: real, b: real)
    requires a > 0.0 && b > 0.0
    ensures a / b > 0.0 && Times(a / b, b) == a && a / (a / b) == b
  {
  }

  lemma QuotientIsAntitone(target: real, m1: real, m2: real)
    requires target > 0.0 && 0.0 < m1 <= m2
    ensures target / m1 >= target / m2
  {
  }

  // Better odds never need a larger stake for the same target.
  lemma StakeIsAntitoneInOdds(pol: Policy, balance: real, low: real, high: real)
    requires pol.mode == ProfitTarget && low <= high
    requires Decide(pol, balance, Some(low)).Authorized?
    requires Decide(pol, balance, Some(high)).Authorized?
    ensures Decide(pol, balance, Some(low)).stake >= Decide(pol, balance, Some(high)).stake
  {
    var f := FundedAmount(pol, balance, Some(low));
    var g := FundedAmount(pol, balance, Some(high));
    var a := Quotient(pol.targetProfit.value, low - 1.0);
    SnapInUnits(pol, f);
    SnapInUnits(pol, g);
    UnitsArePositive(pol, f);
    assert f <= a;
    ScaleUp(0.0, a, low - 1.0);
    Halve(low - 1.0);
    QuotientIsAntitone(pol.targetProfit.value, low - 1.0, high - 1.0);
    UnitsAreMonotone(pol, g, f);
    GridIsMonotone(Units(pol, g), Units(pol, f), Unit(pol));
  }
}
