// Stake arithmetic: the integer solver, the behaviour waterfall that picks one
// of its candidates, and the constraint engine that sizes a bet.

module PricingSolver {
  import opened Common

  const MAX_SAFE_INTEGER := 0x1F_FFFF_FFFF_FFFF

  datatype Resolution = Clamp | ReduceProfit | OtherResolution

  datatype Observation = Observation(
    marketSuspended: bool,
    platformMax: Option<int>,
    platformMin: Option<int>,
    balance: int,
    odds: real,
    currencyIncrement: int)

  datatype Policy = Policy(
    maxStake: int,
    minStake: int,
    targetProfit: int,
    minAcceptableProfit: int,
    resolution: Resolution)

  function Min(a: int, b: int): int { if a < b then a else b }

  function Max(a: int, b: int): int { if a < b then b else a }

  function UpperBound(obs: Observation, pol: Policy): int {
    var platformMax := if obs.platformMax.Some? then obs.platformMax.value else MAX_SAFE_INTEGER;
    Min(pol.maxStake, Min(obs.balance, platformMax))
  }

  function LowerBound(obs: Observation, pol: Policy): int {
    Max(pol.minStake, if obs.platformMin.Some? then obs.platformMin.value else 0)
  }

  function CeilReal(x: real): (n: int)
    ensures (n - 1) as real < x <= n as real
  {
    -((-x).Floor)
  }

  function CeilDiv(a: int, d: int): (q: int)
    requires d > 0
    ensures (q - 1) * d < a <= q * d
  {
    -((-a) / d)
  }

  function Profit(stake: int, odds: real): real { stake as real * (odds - 1.0) }

  // A stake the platform and the policy allow, in whole increments.
  predicate InBounds(stake: int, obs: Observation, pol: Policy)
    requires obs.currencyIncrement > 0
  {
    && LowerBound(obs, pol) <= stake <= UpperBound(obs, pol)
    && stake % obs.currencyIncrement == 0
  }

  // The market can be priced at all.
  predicate Priceable(obs: Observation, pol: Policy) {
    && !obs.marketSuspended
    && LowerBound(obs, pol) <= UpperBound(obs, pol)
    && obs.odds > 1.0
    && obs.currencyIncrement > 0
  }

  lemma PriceableMeans(obs: Observation, pol: Policy)
    requires obs.platformMax.Some? && obs.platformMin.Some?
    ensures Priceable(obs, pol) <==>
      && !obs.marketSuspended && obs.odds > 1.0 && obs.currencyIncrement > 0
      && pol.minStake <= pol.maxStake && pol.minStake <= obs.balance && pol.minStake <= obs.platformMax.value
      && obs.platformMin.value <= pol.maxStake && obs.platformMin.value <= obs.balance
      && obs.platformMin.value <= obs.platformMax.value
  {
  }

  // The upper bound reaches the target profit.
  predicate TargetFits(obs: Observation, pol: Policy) {
    Profit(UpperBound(obs, pol), obs.odds) >= pol.targetProfit as real
  }

  // The largest allowed stake is an acceptable second best.
  predicate FallbackAllowed(obs: Observation, pol: Policy)
    requires obs.currencyIncrement > 0
  {
    && pol.resolution != OtherResolution
    && Profit(UpperBound(obs, pol), obs.odds).Floor >= pol.minAcceptableProfit
    && UpperBound(obs, pol) % obs.currencyIncrement == 0
  }

  // The bounds, limit by limit.
  lemma BoundsMean(stake: int, obs: Observation, pol: Policy)
    requires obs.currencyIncrement > 0
    ensures InBounds(stake, obs, pol) <==>
      && stake <= pol.maxStake && stake <= obs.balance
      && (if obs.platformMax.Some? then stake <= obs.platformMax.value else stake <= 0x1F_FFFF_FFFF_FFFF)
      && stake >= pol.minStake
      && (if obs.platformMin.Some? then stake >= obs.platformMin.value else stake >= 0)
      && stake % obs.currencyIncrement == 0
    ensures InBounds(UpperBound(obs, pol), obs, pol) ==>
      forall x | InBounds(x, obs, pol) :: x <= UpperBound(obs, pol)
  {
  }

  ghost predicate Increasing(s: seq<int>) {
    forall i, j | 0 <= i < j < |s| :: s[i] < s[j]
  }

  // The required stake is the least integer that reaches the target profit.
  lemma RequiredStakeIsLeast(target: int, odds: real, stake: int)
    requires odds > 1.0
    ensures stake >= CeilReal(target as real / (odds - 1.0)) <==> Profit(stake, odds) >= target as real
  {
    var m := odds - 1.0;
    var q := target as real / m;
    assert q * m == target as real;
    if stake as real >= q {
      MulMonotone(q, stake as real, m);
    } else {
      assert (q - stake as real) * m > 0.0;
    }
  }

  lemma RequiredStakeDecides(target: int, odds: real, required: int)
    requires odds > 1.0 && required == CeilReal(target as real / (odds - 1.0))
    ensures forall x :: x >= required <==> Profit(x, odds) >= target as real
  {
    forall x ensures x >= required <==> Profit(x, odds) >= target as real {
      RequiredStakeIsLeast(target, odds, x);
    }
  }

  lemma MulMonotone(a: real, b: real, m: real)
    requires a <= b && m > 0.0
    ensures a * m <= b * m
  {
  }

  lemma ProductIsMultiple(q: int, d: int)
    requires d > 0
    ensures (q * d) % d == 0
  {
    var k := q * d / d;
    assert (q - k) * d == (q * d) % d;
    MultipleIsFar(q - k, d);
  }

  lemma MultipleIsStep(x: int, start: int, d: int)
    requires d > 0 && x % d == 0 && start % d == 0 && start < x
    ensures start + d <= x
  {
    var i, j := start / d, x / d;
    assert start == i * d && x == j * d;
    assert x - start == (j - i) * d;
    MultipleIsFar(j - i, d);
  }

  lemma NextMultiple(start: int, d: int)
    requires d > 0 && start % d == 0
    ensures (start + d) % d == 0
  {
    assert start + d == (start / d + 1) * d;
    ProductIsMultiple(start / d + 1, d);
  }

  // The multiples of `inc` in [lo, hi], in increasing order.
  method Multiples(lo: int, hi: int, inc: int) returns (candidates: seq<int>)
    requires inc > 0
    ensures Increasing(candidates)
    ensures forall x :: x in candidates <==> lo <= x <= hi && x % inc == 0
    ensures lo == hi ==> candidates == if lo % inc == 0 then [lo] else []
  {
    candidates := [];
    var current := CeilDiv(lo, inc) * inc;
    ProductIsMultiple(CeilDiv(lo, inc), inc);
    forall x | lo <= x && x % inc == 0 ensures current <= x {
      if x < current { MultipleIsStep(current, x, inc); }
    }
    while current <= hi
      invariant current % inc == 0 && lo <= current
      invariant Increasing(candidates)
      invariant forall x :: x in candidates <==> lo <= x <= hi && x < current && x % inc == 0
      invariant lo == hi ==> candidates == if lo % inc == 0 && lo < current then [lo] else []
      decreases hi - current
    {
      forall k | 0 <= k < |candidates| ensures candidates[k] < current {
        assert candidates[k] in candidates;
      }
      candidates := candidates + [current];
      forall x | x % inc == 0 && x > current ensures x >= current + inc {
        MultipleIsStep(x, current, inc);
      }
      NextMultiple(current, inc);
      current := current + inc;
    }
  }

  method Solve(obs: Observation, pol: Policy) returns (candidates: seq<int>)
    ensures !Priceable(obs, pol) ==> candidates == []
    // The target fits: every stake that reaches it, and only those.
    ensures Priceable(obs, pol) && TargetFits(obs, pol) ==>
      && Increasing(candidates)
      && forall x :: x in candidates <==> InBounds(x, obs, pol) && Profit(x, obs.odds) >= pol.targetProfit as real
    // It does not fit: no stake reaches it, and the bound itself may stand in.
    ensures Priceable(obs, pol) && !TargetFits(obs, pol) ==>
      && (forall x | InBounds(x, obs, pol) :: Profit(x, obs.odds) < pol.targetProfit as real)
      && candidates == if FallbackAllowed(obs, pol) then [UpperBound(obs, pol)] else []
  {
    if obs.marketSuspended {
      return [];
    }
    var upper, lower := UpperBound(obs, pol), LowerBound(obs, pol);
    if upper < lower {
      return [];
    }
    if obs.odds <= 1.0 {
      return [];
    }
    var multiplier := obs.odds - 1.0;
    var required := CeilReal(pol.targetProfit as real / multiplier);
    RequiredStakeDecides(pol.targetProfit, obs.odds, required);
    assert TargetFits(obs, pol) <==> required <= upper;
    var continuousMin, continuousMax := 0, 0;
    if required <= upper {
      continuousMin := Max(required, lower);
      continuousMax := upper;
    } else {
      if pol.resolution == Clamp || pol.resolution == ReduceProfit {
        continuousMin, continuousMax := upper, upper;
      } else {
        return [];
      }
      var projectedProfit := Profit(continuousMin, obs.odds).Floor;
      if projectedProfit < pol.minAcceptableProfit {
        return [];
      }
      if continuousMin < lower {
        return [];
      }
    }
    if obs.currencyIncrement <= 0 {
      return [];
    }
    candidates := Multiples(continuousMin, continuousMax, obs.currencyIncrement);
  }
}

module BehavioralEngine {
  import opened Common

  datatype Behavior = PreferRound | PreferMin | PreferMax | UnknownBehavior

  // ---------- The waterfall on sets ----------

  ghost predicate IsLeast(m: int, s: set<int>) { m in s && forall x | x in s :: m <= x }

  ghost predicate IsGreatest(m: int, s: set<int>) { m in s && forall x | x in s :: x <= m }

  lemma {:induction false} LeastExists(s: set<int>)
    requires s != {}
    ensures exists m :: IsLeast(m, s)
    decreases |s|
  {
    var x := SomeElement(s);
    var rest := s - {x};
    assert s == rest + {x};
    if rest == {} {
      assert IsLeast(x, s);
    } else {
      LeastExists(rest);
      var r :| IsLeast(r, rest);
      assert IsLeast(if x <= r then x else r, s);
    }
  }

  lemma {:induction false} GreatestExists(s: set<int>)
    requires s != {}
    ensures exists m :: IsGreatest(m, s)
    decreases |s|
  {
    var x := SomeElement(s);
    var rest := s - {x};
    assert s == rest + {x};
    if rest == {} {
      assert IsGreatest(x, s);
    } else {
      GreatestExists(rest);
      var r :| IsGreatest(r, rest);
      assert IsGreatest(if x >= r then x else r, s);
    }
  }

  ghost function Least(s: set<int>): (m: int)
    requires s != {}
    ensures IsLeast(m, s)
  {
    LeastExists(s);
    var m :| IsLeast(m, s);
    m
  }

  ghost function Greatest(s: set<int>): (m: int)
    requires s != {}
    ensures IsGreatest(m, s)
  {
    GreatestExists(s);
    var m :| IsGreatest(m, s);
    m
  }

  function RoundOnly(s: set<int>): (r: set<int>)
    ensures forall c :: c in r <==> c in s && c % 1000 == 0
  {
    set c | c in s && c % 1000 == 0
  }

  ghost function Prefer(s: set<int>, b: Behavior): (r: set<int>)
    requires s != {}
    ensures r != {} && r <= s
  {
    match b
    case PreferRound =>
      var preferred := RoundOnly(s);
      if preferred != {} then preferred else s
    case PreferMin => {Least(s)}
    case PreferMax => {Greatest(s)}
    case UnknownBehavior => s
  }

  ghost function Waterfall(s: set<int>, behaviors: seq<Behavior>): (r: set<int>)
    requires s != {}
    ensures r != {} && r <= s
    decreases |behaviors|
  {
    if behaviors == [] then s else Waterfall(Prefer(s, behaviors[0]), behaviors[1..])
  }

  // What the engine chooses, as a function of the set of candidates alone.
  ghost function Choice(s: set<int>, behaviors: seq<Behavior>): (c: int)
    requires s != {}
    ensures c in s
  {
    Least(Waterfall(s, behaviors))
  }

  function Elements(s: seq<int>): (r: set<int>)
    ensures forall x :: x in r <==> x in s
    ensures s != [] ==> s[0] in r
  {
    set x | x in s
  }

  // Nothing is left to decide about a single candidate.
  lemma {:induction false} SingletonIsSettled(c: int, behaviors: seq<Behavior>)
    ensures Waterfall({c}, behaviors) == {c}
    decreases |behaviors|
  {
  }

  // ---------- What the behaviours mean ----------

  predicate IsRound(c: int) { c % 1000 == 0 }

  predicate SettlesIt(b: Behavior) { b == PreferMin || b == PreferMax }

  // The candidates left by the behaviours before the first that settles it: all,
  // or the round ones if round ones are preferred and there are any.
  ghost predicate IsLeft(c: int, s: set<int>, before: seq<Behavior>) {
    c in s && (PreferRound in before && (exists r :: r in s && IsRound(r)) ==> IsRound(c))
  }

  // Of the candidates left, the greatest is chosen if the first behaviour that
  // settles it is PreferMax, and the least otherwise. Nothing else in the list matters.
  lemma {:induction false} ChoiceIsExtreme(s: set<int>, behaviors: seq<Behavior>, k: nat)
    requires s != {} && k <= |behaviors| && forall i | 0 <= i < k :: !SettlesIt(behaviors[i])
    requires k < |behaviors| ==> SettlesIt(behaviors[k])
    ensures IsLeft(Choice(s, behaviors), s, behaviors[..k])
    ensures forall c | IsLeft(c, s, behaviors[..k]) ::
      if k < |behaviors| && behaviors[k] == PreferMax then c <= Choice(s, behaviors) else Choice(s, behaviors) <= c
    decreases |behaviors|
  {
    if behaviors == [] {
      assert behaviors[..k] == [];
    } else if k == 0 {
      var m := if behaviors[0] == PreferMax then Greatest(s) else Least(s);
      SingletonIsSettled(m, behaviors[1..]);
      assert Choice(s, behaviors) == m;
    } else {
      var first, rest := behaviors[0], behaviors[1..];
      var t := Prefer(s, first);
      ChoiceIsExtreme(t, rest, k - 1);
      assert behaviors[..k] == [first] + rest[..k - 1];
      forall c ensures IsLeft(c, t, rest[..k - 1]) <==> IsLeft(c, s, behaviors[..k]) {
        OneBehaviorLess(s, t, first, rest[..k - 1], c);
      }
    }
  }

  lemma OneBehaviorLess(s: set<int>, t: set<int>, first: Behavior, rest: seq<Behavior>, c: int)
    requires s != {} && t == Prefer(s, first) && !SettlesIt(first)
    ensures IsLeft(c, t, rest) <==> IsLeft(c, s, [first] + rest)
  {
    if first == PreferRound {
      assert PreferRound in [first] + rest;
      if RoundOnly(s) != {} {
        var r := SomeElement(RoundOnly(s));
        assert r in s && IsRound(r);
        assert r in t;
      } else {
        assert forall r | r in s :: r !in RoundOnly(s) && !IsRound(r);
      }
    }
  }

  // Two candidates, and each of the two settling behaviours.
  lemma OneOrTwoHundred()
    ensures Choice({100, 200}, [PreferMax]) == 200 && Choice({100, 200}, [PreferMin]) == 100
    ensures Choice({100, 1000, 2000}, [UnknownBehavior, PreferRound]) == 1000
  {
    ChoiceIsExtreme({100, 200}, [PreferMax], 0);
    assert IsLeft(200, {100, 200}, [PreferMax][..0]);
    ChoiceIsExtreme({100, 200}, [PreferMin], 0);
    assert IsLeft(100, {100, 200}, [PreferMin][..0]);
    var s, bs := {100, 1000, 2000}, [UnknownBehavior, PreferRound];
    ChoiceIsExtreme(s, bs, 2);
    assert bs[..2] == bs && bs[1] in bs;
    assert 1000 in s && IsRound(1000);
    assert IsLeft(1000, s, bs[..2]);
  }

  // ---------- The engine's loops ----------

  method MinOf(s: seq<int>) returns (m: int)
    requires s != []
    ensures m == Least(Elements(s))
  {
    m := s[0];
    for i := 1 to |s|
      invariant m in s
      invariant forall k | 0 <= k < i :: m <= s[k]
    {
      if s[i] < m { m := s[i]; }
    }
    assert IsLeast(m, Elements(s));
  }

  method MaxOf(s: seq<int>) returns (m: int)
    requires s != []
    ensures m == Greatest(Elements(s))
  {
    m := s[0];
    for i := 1 to |s|
      invariant m in s
      invariant forall k | 0 <= k < i :: m >= s[k]
    {
      if s[i] > m { m := s[i]; }
    }
    assert IsGreatest(m, Elements(s));
  }

  method RoundOnes(s: seq<int>) returns (r: seq<int>)
    ensures forall c :: c in r <==> c in s && c % 1000 == 0
  {
    r := [];
    for i := 0 to |s|
      invariant forall c :: c in r <==> c in s[..i] && c % 1000 == 0
    {
      if s[i] % 1000 == 0 { r := r + [s[i]]; }
    }
  }

  method ApplyBehavior(candidates: seq<int>, behaviors: seq<Behavior>) returns (r: Option<int>)
    ensures r == if candidates == [] then None else Some(Choice(Elements(candidates), behaviors))
  {
    if |candidates| == 0 {
      return None;
    }
    var current := candidates;
    assert candidates[0] in Elements(candidates);
    if |behaviors| == 0 {
      var least := MinOf(current);
      return Some(least);
    }
    var i := 0;
    ghost var goal := Waterfall(Elements(candidates), behaviors);
    while i < |behaviors|
      invariant 0 <= i <= |behaviors|
      invariant current != [] && current[0] in Elements(current)
      invariant Waterfall(Elements(current), behaviors[i..]) == goal
      decreases |behaviors| - i
    {
      if |current| <= 1 {
        assert Elements(current) == {current[0]};
        SingletonIsSettled(current[0], behaviors[i..]);
        break;
      }
      var next := current;
      ghost var before := Elements(current);
      match behaviors[i] {
        case PreferRound =>
          next := RoundOnes(current);
          SameInts(Elements(next), RoundOnly(before));
          if |next| == 0 { next := current; }
        case PreferMin =>
          var m := MinOf(current);
          next := [m];
        case PreferMax =>
          var m := MaxOf(current);
          next := [m];
        case UnknownBehavior =>
      }
      assert Elements(next) == Prefer(before, behaviors[i]);
      current := next;
      assert behaviors[i..][1..] == behaviors[i + 1..];
      i := i + 1;
      assert current[0] in Elements(current);
    }
    assert Elements(current) == goal;
    var least := MinOf(current);
    r := Some(least);
  }
}

module PricingDecision {
  import opened Common
  import opened PricingSolver
  import opened BehavioralEngine

  // Solving and selecting, as the edge controller chains them: a chosen stake
  // meets every limit, and nothing is chosen only when no stake qualifies.
  method SelectStake(obs: Observation, pol: Policy, behaviors: seq<Behavior>) returns (stake: Option<int>)
    ensures stake.Some? ==> Priceable(obs, pol) && InBounds(stake.value, obs, pol)
    ensures stake.Some? && TargetFits(obs, pol) ==> Profit(stake.value, obs.odds) >= pol.targetProfit as real
    ensures stake.Some? && !TargetFits(obs, pol) ==>
      && stake.value == UpperBound(obs, pol) && Profit(stake.value, obs.odds).Floor >= pol.minAcceptableProfit
      && (pol.resolution == Clamp || pol.resolution == ReduceProfit)
    ensures stake.Some? ==> !obs.marketSuspended && obs.odds > 1.0 && obs.currencyIncrement > 0
    ensures stake.None? && Priceable(obs, pol) && TargetFits(obs, pol) ==>
      forall x | InBounds(x, obs, pol) :: Profit(x, obs.odds) < pol.targetProfit as real
    ensures stake.None? && Priceable(obs, pol) && !TargetFits(obs, pol) ==>
      || (pol.resolution != Clamp && pol.resolution != ReduceProfit)
      || Profit(UpperBound(obs, pol), obs.odds) < pol.minAcceptableProfit as real
      || UpperBound(obs, pol) % obs.currencyIncrement != 0
  {
    var candidates := Solve(obs, pol);
    stake := ApplyBehavior(candidates, behaviors);
    if candidates != [] {
      assert stake.value in Elements(candidates);
    }
  }
}
