// The health monitor's circuit breaker: it keeps at most ten failure times and
// closes lazily, yet answers as if it kept the whole history.

module CircuitBreaking {

  const LOG_LIMIT := 10

  // The failures at or after `cutoff`, in order.
  function Since(times: seq<int>, cutoff: int): (r: seq<int>)
    ensures |r| <= |times|
  {
    if times == [] then []
    else if times[0] >= cutoff then [times[0]] + Since(times[1..], cutoff)
    else Since(times[1..], cutoff)
  }

  function LastOf(times: seq<int>, n: nat): (r: seq<int>)
    ensures |r| == if |times| < n then |times| else n
  {
    if |times| > n then times[|times| - n..] else times
  }

  ghost predicate NonDecreasing(times: seq<int>) {
    forall i, j | 0 <= i <= j < |times| :: times[i] <= times[j]
  }

  lemma {:induction false} SinceOfSince(times: seq<int>, early: int, late: int)
    requires early <= late
    ensures Since(Since(times, early), late) == Since(times, late)
  {
    if times != [] {
      SinceOfSince(times[1..], early, late);
      var rest := Since(times[1..], early);
      if times[0] >= early {
        assert Since(times, early)[0] == times[0] && Since(times, early)[1..] == rest;
      } else {
        assert Since(times, early) == rest;
      }
    }
  }

  lemma {:induction false} SinceKeepsOrder(times: seq<int>, cutoff: int)
    requires NonDecreasing(times)
    ensures NonDecreasing(Since(times, cutoff))
    ensures forall t | t in Since(times, cutoff) :: t in times
  {
    if times != [] {
      SinceKeepsOrder(times[1..], cutoff);
    }
  }

  lemma {:induction false} SinceOfAllRecent(times: seq<int>, cutoff: int)
    requires forall i | 0 <= i < |times| :: times[i] >= cutoff
    ensures Since(times, cutoff) == times
  {
    if times != [] {
      SinceOfAllRecent(times[1..], cutoff);
    }
  }

  lemma {:induction false} AppendKeepsOrder(times: seq<int>, t: int)
    requires NonDecreasing(times)
    requires times != [] ==> times[|times| - 1] <= t
    ensures NonDecreasing(times + [t])
  {
  }

  // In a history in time order, filtering and capping commute.
  lemma {:induction false} SinceOfLast(times: seq<int>, n: nat, cutoff: int)
    requires NonDecreasing(times)
    ensures Since(LastOf(times, n), cutoff) == LastOf(Since(times, cutoff), n)
  {
    if |times| > n {
      SinceOfLast(times[1..], n, cutoff);
      assert LastOf(times, n) == LastOf(times[1..], n);
      if times[0] >= cutoff {
        SinceOfAllRecent(times, cutoff);
        SinceOfAllRecent(times[1..], cutoff);
      }
    }
  }

  lemma {:induction false} SinceOfAppend(times: seq<int>, t: int, cutoff: int)
    ensures Since(times + [t], cutoff) == Since(times, cutoff) + (if t >= cutoff then [t] else [])
  {
    if times == [] {
      assert times + [t] == [t] && [t][1..] == [];
    } else {
      assert (times + [t])[1..] == times[1..] + [t];
      SinceOfAppend(times[1..], t, cutoff);
    }
  }

  // What the log holds: the last ten failures of the current window.
  function Log(history: seq<int>, cutoff: int): seq<int> {
    LastOf(Since(history, cutoff), LOG_LIMIT)
  }

  // Moving the window forward can be done on the log instead of the history.
  lemma {:induction false} LogFilters(history: seq<int>, early: int, late: int)
    requires NonDecreasing(history) && early <= late
    ensures Since(Log(history, early), late) == Log(history, late)
  {
    SinceKeepsOrder(history, early);
    SinceOfLast(Since(history, early), LOG_LIMIT, late);
    SinceOfSince(history, early, late);
  }

  // So can recording one more failure.
  lemma {:induction false} LogAppends(history: seq<int>, log: seq<int>, early: int, t: int, late: int)
    requires NonDecreasing(history) && early <= late <= t
    requires log == Log(history, early)
    ensures LastOf(Since(log + [t], late), LOG_LIMIT) == Log(history + [t], late)
  {
    SinceOfAppend(log, t, late);
    LogFilters(history, early, late);
    SinceOfAppend(history, t, late);
  }

  // The breaker an unbounded history would give.
  predicate Tripped(history: seq<int>, now: int, windowMs: nat, threshold: nat) {
    |Since(history, now - windowMs)| >= threshold
  }

  // Tripped means that the threshold-last failure lies within the window.
  lemma {:induction false} TrippedMeans(history: seq<int>, now: int, windowMs: nat, threshold: nat)
    requires NonDecreasing(history) && threshold > 0
    ensures Tripped(history, now, windowMs, threshold) <==>
      |history| >= threshold && now - history[|history| - threshold] <= windowMs
    decreases |history|
  {
    if history != [] {
      if now - history[0] <= windowMs {
        SinceOfAllRecent(history, now - windowMs);
      } else {
        TrippedMeans(history[1..], now, windowMs, threshold);
      }
    }
  }

  // The capped log answers the threshold question like the full history, as
  // long as the threshold fits in the log.
  lemma {:induction false} LogCounts(history: seq<int>, now: int, windowMs: nat, threshold: nat)
    ensures |Log(history, now - windowMs)| >= threshold <==>
            threshold <= LOG_LIMIT && Tripped(history, now, windowMs, threshold)
  {
  }

  // The log, given the full history up to `clock`.
  ghost predicate Represents(log: seq<int>, history: seq<int>, clock: int, windowMs: nat) {
    && NonDecreasing(history)
    && (history != [] ==> history[|history| - 1] <= clock)
    && log == Log(history, clock - windowMs)
  }

  lemma {:induction false} RecordingRepresents(log: seq<int>, history: seq<int>, clock: int, windowMs: nat, t: int)
    requires Represents(log, history, clock, windowMs) && clock <= t
    ensures Represents(LastOf(Since(log + [t], t - windowMs), LOG_LIMIT), history + [t], t, windowMs)
  {
    LogAppends(history, log, clock - windowMs, t, t - windowMs);
    AppendKeepsOrder(history, t);
  }

  lemma {:induction false} WaitingRepresents(log: seq<int>, history: seq<int>, clock: int, windowMs: nat, now: int)
    requires Represents(log, history, clock, windowMs) && clock <= now
    ensures Represents(Since(log, now - windowMs), history, now, windowMs)
  {
    LogFilters(history, clock - windowMs, now - windowMs);
  }

  class CircuitBreaker {
    const threshold: nat
    const windowMs: nat
    var open: bool
    var failureTimestamps: seq<int>
    // Every failure since the last reset, and the latest time seen.
    ghost var history: seq<int>
    ghost var clock: int

    ghost predicate Valid()
      reads this
    {
      && threshold >= 1
      && Represents(failureTimestamps, history, clock, windowMs)
      && (|failureTimestamps| >= threshold ==> open)
    }

    // An option left out (or zero) takes its default.
    constructor (threshold: nat, windowMs: nat, now: int)
      ensures Valid() && history == [] && clock == now
      ensures this.threshold == if threshold == 0 then 3 else threshold
      ensures this.windowMs == if windowMs == 0 then 60000 else windowMs
    {
      this.threshold := if threshold == 0 then 3 else threshold;
      this.windowMs := if windowMs == 0 then 60000 else windowMs;
      open, failureTimestamps := false, [];
      history, clock := [], now;
    }

    // Keeps the last ten times of the window.
    static method Trim(times: seq<int>, cutoff: int) returns (log: seq<int>)
      ensures log == LastOf(Since(times, cutoff), LOG_LIMIT)
    {
      log := Since(times, cutoff);
      if |log| > LOG_LIMIT {
        log := log[|log| - LOG_LIMIT..];
      }
    }

    method RecordFailure(timestamp: int)
      requires Valid() && clock <= timestamp
      modifies this
      ensures Valid()
      ensures history == old(history) + [timestamp] && clock == timestamp
    {
      RecordingRepresents(failureTimestamps, history, clock, windowMs, timestamp);
      failureTimestamps := Trim(failureTimestamps + [timestamp], timestamp - windowMs);
      if |failureTimestamps| >= threshold {
        open := true;
      }
      history, clock := history + [timestamp], timestamp;
    }

    // The answer is the unbounded history's answer for every threshold the log
    // can hold; for a larger threshold the breaker never trips.
    method IsTripped(now: int) returns (tripped: bool)
      requires Valid() && clock <= now
      modifies this
      ensures Valid()
      ensures history == old(history) && clock == now
      ensures tripped <==> threshold <= 10 && Tripped(history, now, windowMs, threshold)
    {
      var cutoff := now - windowMs;
      WaitingRepresents(failureTimestamps, history, clock, windowMs, now);
      LogCounts(history, now, windowMs, threshold);
      failureTimestamps := Since(failureTimestamps, cutoff);
      if |failureTimestamps| < threshold && open {
        open := false;
      }
      clock := now;
      tripped := open;
    }

    method Reset()
      requires Valid()
      modifies this`open, this`failureTimestamps, this`history
      ensures Valid() && history == []
    {
      open, failureTimestamps := false, [];
      history := [];
    }
  }

  // A run of failures at one moment.
  function Burst(n: nat): seq<int> { seq(n, _ => 0) }

  lemma {:induction false} BurstIsRecent(n: nat, cutoff: int)
    requires cutoff <= 0
    ensures Since(Burst(n), cutoff) == Burst(n) && NonDecreasing(Burst(n))
  {
    SinceOfAllRecent(Burst(n), cutoff);
  }

  // The log answers like the full history, for every history in time order and
  // every moment, exactly when the threshold fits in it.
  lemma CapIsHarmlessIff(windowMs: nat, threshold: nat)
    ensures threshold <= 10 <==>
      forall history, now | NonDecreasing(history) ::
        |Log(history, now - windowMs)| >= threshold <==> Tripped(history, now, windowMs, threshold)
  {
    if threshold > LOG_LIMIT {
      BurstIsRecent(threshold, 0 - windowMs);
      assert Tripped(Burst(threshold), 0, windowMs, threshold);
      assert |Log(Burst(threshold), 0 - windowMs)| < threshold;
    }
    forall history, now | NonDecreasing(history) && threshold <= LOG_LIMIT
      ensures |Log(history, now - windowMs)| >= threshold <==> Tripped(history, now, windowMs, threshold)
    {
      LogCounts(history, now, windowMs, threshold);
    }
  }

  // A breaker with too high a threshold, after that many failures at once: the
  // full history has tripped and the breaker has not.
  method OverlongThresholdNeverTrips(threshold: nat, windowMs: nat) returns (breaker: CircuitBreaker, tripped: bool)
    requires threshold > 10
    ensures fresh(breaker) && breaker.Valid() && breaker.threshold == threshold && breaker.history == Burst(threshold)
    ensures !tripped && Tripped(breaker.history, breaker.clock, breaker.windowMs, threshold)
  {
    breaker := new CircuitBreaker(threshold, windowMs, 0);
    for i := 0 to threshold
      invariant breaker.Valid() && fresh(breaker)
      invariant breaker.history == Burst(i) && breaker.clock == 0
    {
      breaker.RecordFailure(0);
      assert Burst(i + 1) == Burst(i) + [0];
    }
    tripped := breaker.IsTripped(0);
    BurstIsRecent(threshold, 0 - breaker.windowMs);
  }
}
