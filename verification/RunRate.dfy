/** The run-rate limiter of the 3A algorithms: once an algorithm has converged it is skipped
    so that it runs in a configured fraction of the calls.
  */
module RunRate {
  const EPSILON: real := 0.00001

  datatype Counters = Counters(cca: nat, algo: nat)

  class RunRateInfo {
    var runCcaTime: nat
    var runAlgoTime: nat

    ghost function Abs(): Counters
      reads this
    {
      Counters(runCcaTime, runAlgoTime)
    }

    constructor ()
      ensures Abs() == Counters(0, 0)
    {
      runCcaTime, runAlgoTime := 0, 0;
    }

    method Reset()
      modifies this
      ensures Abs() == Counters(0, 0)
    {
      runCcaTime, runAlgoTime := 0, 0;
    }
  }

  /** Whether the algorithm has run in more than the configured fraction of the calls. */
  method CheckRunRate(configRunningRate: real, info: RunRateInfo) returns (exceeded: bool)
    ensures exceeded <==> info.runCcaTime == 0 || Limit(configRunningRate) * info.runCcaTime as real < info.runAlgoTime as real
    ensures exceeded <==>
            info.runCcaTime == 0 || info.runAlgoTime as real / info.runCcaTime as real - configRunningRate > 0.00001
  {
    if info.runCcaTime == 0 {
      return true;
    }
    var algoRunningRate := info.runAlgoTime as real / info.runCcaTime as real;
    ScaleByCalls(algoRunningRate, Limit(configRunningRate), info.runCcaTime as real);
    if algoRunningRate - configRunningRate > EPSILON {
      return true;
    }
    return false;
  }

  lemma {:induction false} ScaleByCalls(x: real, y: real, calls: real)
    requires 0.0 < calls
    ensures x > y <==> x * calls > y * calls
  {
    assert (x - y) * calls == x * calls - y * calls;
  }

  /** The fraction the limiter works towards. */
  function Limit(rate: real): real {
    rate + EPSILON
  }

  /** One converged call: the algorithm runs unless it has already run often enough. */
  function Converged(rate: real, c: Counters): Counters {
    var calls := c.cca + 1;
    Counters(calls, if Limit(rate) * calls as real < c.algo as real then c.algo else c.algo + 1)
  }

  function Call(rate: real, c: Counters, converged: bool): Counters {
    if rate < EPSILON then c else if converged then Converged(rate, c) else Counters(0, 0)
  }

  method SkipAlgoRunning(rate: real, info: RunRateInfo, converged: bool) returns (skip: bool)
    modifies info
    ensures info.Abs() == Call(rate, old(info.Abs()), converged)
    ensures skip <==> EPSILON <= rate && converged && info.runAlgoTime == old(info.runAlgoTime)
  {
    if rate < EPSILON {
      return false;
    }
    if converged {
      info.runCcaTime := info.runCcaTime + 1;
      var exceeded := CheckRunRate(rate, info);
      if exceeded {
        return true;
      }
      info.runAlgoTime := info.runAlgoTime + 1;
    } else {
      info.runCcaTime := 0;
      info.runAlgoTime := 0;
    }
    return false;
  }

  // --------------------------------------------------------------- whole runs

  datatype History = Fresh | Then(before: History, call: CallKind)

  /** `Restart` is the reset made when exposure and white balance have just converged together. */
  datatype CallKind = WhenConverged | WhenNot | Restart

  function After(rate: real, h: History): Counters {
    if h.Fresh? then Counters(0, 0)
    else if h.call.Restart? then Counters(0, 0)
    else Call(rate, After(rate, h.before), h.call.WhenConverged?)
  }

  /** The converged calls since the counters were last cleared. */
  function ConvergedCalls(h: History): nat {
    if h.Fresh? || !h.call.WhenConverged? then 0 else ConvergedCalls(h.before) + 1
  }

  /** How often the algorithm has run in `n` converged calls. */
  function TimesRun(rate: real, n: nat): int {
    if n == 0 then 0
    else if Limit(rate) < 1.0 then (Limit(rate) * n as real).Floor + 1
    else n
  }

  lemma {:induction false} FloorOfSum(x: real, step: real)
    requires 0.0 < step < 1.0
    ensures x.Floor <= (x + step).Floor <= x.Floor + 1
  {
  }

  lemma {:induction false} OneMoreCall(rate: real, n: nat)
    requires EPSILON <= rate
    ensures 0 <= TimesRun(rate, n)
    ensures Converged(rate, Counters(n, TimesRun(rate, n))) == Counters(n + 1, TimesRun(rate, n + 1))
  {
    var limit := Limit(rate);
    var calls := (n + 1) as real;
    assert calls == n as real + 1.0 && limit * calls == limit * n as real + limit;
    if limit < 1.0 {
      Product(limit, n as real);
      FloorOfSum(limit * n as real, limit);
    } else {
      Product(limit - 1.0, calls);
      assert limit * calls == (limit - 1.0) * calls + calls;
    }
  }

  lemma {:induction false} Product(x: real, y: real)
    requires 0.0 <= x && 0.0 <= y
    ensures 0.0 <= x * y
  {
  }

  /** The counters after any run: they count the converged calls since the last clearing, and the
      algorithm has run in exactly `floor(limit * n) + 1` of them, or in all if the limit is 1 or more. */
  lemma {:induction false} CountersAfterRun(rate: real, h: History)
    requires EPSILON <= rate
    ensures 0 <= TimesRun(rate, ConvergedCalls(h))
    ensures After(rate, h) == Counters(ConvergedCalls(h), TimesRun(rate, ConvergedCalls(h)))
  {
    if h.Then? {
      CountersAfterRun(rate, h.before);
      OneMoreCall(rate, ConvergedCalls(h.before));
    }
  }

  /** The same in terms of the configured rate: a call that does not find the algorithm converged clears the counters, any
      other counts, and of `n` counted calls the algorithm ran in as many as the rate and its tolerance allow, and one. */
  lemma {:induction false} RunsAsConfigured(rate: real, h: History)
    requires EPSILON <= rate
    ensures var c, limit := After(rate, h), rate + 0.00001;
            && (h.Fresh? || !h.call.WhenConverged? ==> c == Counters(0, 0))
            && (h.Then? && h.call.WhenConverged? ==> c.cca == After(rate, h.before).cca + 1)
            && (limit >= 1.0 ==> c.algo == c.cca)
            && (limit < 1.0 && c.cca > 0 ==> c.algo == (limit * c.cca as real).Floor + 1)
  {
    CountersAfterRun(rate, h);
    if h.Then? {
      CountersAfterRun(rate, h.before);
    }
  }

  lemma {:induction false} FloorBound(x: real)
    ensures x <= (x.Floor + 1) as real <= x + 1.0
  {
  }

  /** The runs are within one of the limit's share of the calls. */
  predicate WithinOneRun(rate: real, c: Counters) {
    Limit(rate) * c.cca as real <= c.algo as real <= Limit(rate) * c.cca as real + 1.0
  }

  lemma {:induction false} ShareBound(rate: real, n: nat)
    requires EPSILON <= rate && Limit(rate) <= 1.0
    ensures 0 <= TimesRun(rate, n) && WithinOneRun(rate, Counters(n, TimesRun(rate, n)))
  {
    var share := Limit(rate) * n as real;
    Product(Limit(rate), n as real);
    if Limit(rate) < 1.0 {
      FloorBound(share);
    } else {
      assert Limit(rate) == 1.0;
      assert share == 1.0 * n as real == n as real;
    }
  }

  lemma {:induction false} FirstCallExceeds(rate: real)
    requires EPSILON <= rate && Limit(rate) > 1.0
    ensures After(rate, Then(Fresh, WhenConverged)) == Counters(1, 1) && !WithinOneRun(rate, Counters(1, 1))
  {
    CountersAfterRun(rate, Then(Fresh, WhenConverged));
    assert Limit(rate) * 1 as real == Limit(rate);
  }

  /** The algorithm's share stays within one run above the limit, and never below it, exactly when
      the limit does not exceed 1. */
  lemma {:induction false} ShareWithinOneRunIff(rate: real)
    requires EPSILON <= rate
    ensures (forall h :: WithinOneRun(rate, After(rate, h))) <==> rate + 0.00001 <= 1.0
  {
    if Limit(rate) <= 1.0 {
      forall h
        ensures WithinOneRun(rate, After(rate, h))
      {
        CountersAfterRun(rate, h);
        ShareBound(rate, ConvergedCalls(h));
      }
    } else {
      FirstCallExceeds(rate);
    }
  }

  /** Over any stretch of converged calls the number of runs differs from the limit's share by less than one. */
  lemma {:induction false} ShareOfAnyStretch(rate: real, m: nat, n: nat)
    requires EPSILON <= rate && Limit(rate) < 1.0 && 0 < m <= n
    ensures var runs, share := (TimesRun(rate, n) - TimesRun(rate, m)) as real, Limit(rate) * (n - m) as real;
            share - 1.0 < runs < share + 1.0
  {
    var limit := Limit(rate);
    assert (n - m) as real == n as real - m as real;
    assert limit * (n as real - m as real) == limit * n as real - limit * m as real;
  }

  /** Without a configured rate nothing is counted and nothing skipped. */
  lemma {:induction false} NoRateNoCounting(rate: real, h: History)
    requires rate < EPSILON
    ensures After(rate, h) == Counters(0, 0)
  {
    if h.Then? {
      NoRateNoCounting(rate, h.before);
    }
  }
}
