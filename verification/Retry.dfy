/** Retrying with exponential backoff behind a circuit breaker; calls on a breaker are handled one at a time. */
module Retry {
  // ---- The breaker ----

  datatype Mode = Closed | Open | HalfOpen

  datatype Breaker = Breaker(threshold: int, halfOpenWait: int)

  datatype State = State(failures: nat, lastFail: int, mode: Mode, now: int)

  datatype Op = Allow(at: int) | Success | Failure(at: int)

  const INIT := State(0, 0, Closed, 0)

  predicate CanStep(s: State, op: Op)
  {
    match op case Allow(at) => s.now <= at case Failure(at) => s.now <= at case Success => true
  }

  predicate Grants(b: Breaker, s: State, at: int)
  {
    s.mode != Open || at - s.lastFail > b.halfOpenWait
  }

  function Step(b: Breaker, s: State, op: Op): State
  {
    match op
    case Allow(at) => s.(now := at, mode := if s.mode == Open && Grants(b, s, at) then HalfOpen else s.mode)
    case Success => s.(failures := 0, mode := Closed)
    case Failure(at) => State(s.failures + 1, at, if s.failures + 1 >= b.threshold then Open else s.mode, at)
  }

  predicate Run(b: Breaker, s: State, ops: seq<Op>)
    decreases |ops|
  {
    ops == [] || (CanStep(s, ops[0]) && Run(b, Step(b, s, ops[0]), ops[1..]))
  }

  function Final(b: Breaker, s: State, ops: seq<Op>): State
    decreases |ops|
  {
    if ops == [] then s else Final(b, Step(b, s, ops[0]), ops[1..])
  }

  lemma {:induction false} RunSnoc(b: Breaker, s: State, ops: seq<Op>, op: Op)
    ensures Run(b, s, ops + [op]) <==> Run(b, s, ops) && CanStep(Final(b, s, ops), op)
    ensures Final(b, s, ops + [op]) == Step(b, Final(b, s, ops), op)
    decreases |ops|
  {
    hide Step, CanStep;
    if ops == [] {
      assert [] + [op] == [op];
      assert [op][1..] == [];
    } else {
      assert (ops + [op])[1..] == ops[1..] + [op];
      RunSnoc(b, Step(b, s, ops[0]), ops[1..], op);
    }
  }

  /** Failures since the last success. */
  function Consecutive(hist: seq<Op>): nat
  {
    if hist == [] then 0
    else match hist[|hist| - 1]
      case Allow(_) => Consecutive(hist[..|hist| - 1])
      case Success => 0
      case Failure(_) => Consecutive(hist[..|hist| - 1]) + 1
  }

  /** When the last of them happened. */
  function LastFailure(hist: seq<Op>): int
    requires Consecutive(hist) > 0
  {
    match hist[|hist| - 1]
    case Allow(_) => LastFailure(hist[..|hist| - 1])
    case Failure(at) => at
  }

  /** The breaker's fields follow from its history. */
  ghost predicate Explained(b: Breaker, s: State, hist: seq<Op>)
  {
    && s.failures == Consecutive(hist)
    && (s.mode == Closed <==> Consecutive(hist) == 0 || Consecutive(hist) < b.threshold)
    && (Consecutive(hist) > 0 ==> s.lastFail == LastFailure(hist) <= s.now)
    && (s.mode == HalfOpen ==> s.now - s.lastFail > b.halfOpenWait)
  }

  lemma StepExplained(b: Breaker, s: State, hist: seq<Op>, op: Op)
    requires Explained(b, s, hist) && CanStep(s, op)
    ensures Explained(b, Step(b, s, op), hist + [op])
  {
    assert (hist + [op])[..|hist|] == hist;
  }

  lemma {:induction false} RunExplained(b: Breaker, ops: seq<Op>)
    requires Run(b, INIT, ops)
    ensures Explained(b, Final(b, INIT, ops), ops)
  {
    hide CanStep, Step, Run, Final;
    if ops == [] {
      StartExplained(b);
    } else {
      var last := |ops| - 1;
      assert ops == ops[..last] + [ops[last]];
      RunSnoc(b, INIT, ops[..last], ops[last]);
      RunExplained(b, ops[..last]);
      StepExplained(b, Final(b, INIT, ops[..last]), ops[..last], ops[last]);
    }
  }

  lemma StartExplained(b: Breaker)
    ensures Explained(b, Final(b, INIT, []), [])
  {}

  /** The breaker is closed exactly while the consecutive failures are below the threshold. */
  lemma ClosedIff(b: Breaker, ops: seq<Op>)
    requires b.threshold >= 1 && Run(b, INIT, ops)
    ensures Final(b, INIT, ops).mode == Closed <==> Consecutive(ops) < b.threshold
  {
    RunExplained(b, ops);
  }

  /** A call is refused exactly when the threshold is reached and the last failure is at most the half-open wait
      ago; whatever probes were granted in between do not matter. */
  lemma RefusedIff(b: Breaker, ops: seq<Op>, at: int)
    requires Run(b, INIT, ops) && CanStep(Final(b, INIT, ops), Allow(at))
    ensures !Grants(b, Final(b, INIT, ops), at) <==>
            Consecutive(ops) > 0 && Consecutive(ops) >= b.threshold && at - LastFailure(ops) <= b.halfOpenWait
  {
    hide Run, Final;
    RunExplained(b, ops);
  }

  /** With a threshold below one the breaker still starts closed, and the first failure opens it. */
  lemma ThresholdBelowOne(b: Breaker, ops: seq<Op>)
    requires b.threshold < 1 && Run(b, INIT, ops)
    ensures Final(b, INIT, ops).mode == Closed <==> Consecutive(ops) == 0
  {
    RunExplained(b, ops);
  }

  class CircuitBreaker {
    var failures: nat
    var lastFail: int
    var mode: Mode
    const threshold: int
    const halfOpenWait: int
    ghost var now: int

    ghost function Config(): Breaker { Breaker(threshold, halfOpenWait) }

    ghost function View(): State
      reads this
    {
      State(failures, lastFail, mode, now)
    }

    constructor (threshold: int, halfOpenWait: int)
      ensures View() == INIT && Config() == Breaker(threshold, halfOpenWait)
    {
      failures, lastFail, mode, now := 0, 0, Closed, 0;
      this.threshold, this.halfOpenWait := threshold, halfOpenWait;
    }

    method Allow(at: int) returns (ok: bool)
      modifies this
      ensures View() == Step(Config(), old(View()), Op.Allow(at)) && ok == Grants(Config(), old(View()), at)
    {
      now := at;
      match mode
      case Closed => return true;
      case HalfOpen => return true;
      case Open =>
        if at - lastFail > halfOpenWait {
          mode := HalfOpen;
          return true;
        }
        return false;
    }

    method Success()
      modifies this
      ensures View() == Step(Config(), old(View()), Op.Success)
    {
      failures := 0;
      mode := Closed;
    }

    method Failure(at: int)
      modifies this
      ensures View() == Step(Config(), old(View()), Op.Failure(at))
    {
      failures := failures + 1;
      lastFail := at;
      now := at;
      if failures >= threshold {
        mode := Open;
      }
    }
  }

  // ---- Backoff ----

  datatype Config = Config(base: real, max: real, factor: real, maxAttempts: int)

  function MinReal(a: real, b: real): real { if a <= b then a else b }

  function Pow(f: real, k: nat): real { if k == 0 then 1.0 else f * Pow(f, k - 1) }

  function NextDelay(cfg: Config, delay: real): real { MinReal(delay * cfg.factor, cfg.max) }

  /** The delay after failed attempt `k`, before jitter. */
  function Delay(cfg: Config, k: nat): real
  {
    if k == 0 then cfg.base else NextDelay(cfg, Delay(cfg, k - 1))
  }

  /** The delay without the cap. */
  function Uncapped(cfg: Config, k: nat): real { cfg.base * Pow(cfg.factor, k) }

  function Capped(cfg: Config, k: nat): real { MinReal(Uncapped(cfg, k), cfg.max) }

  lemma Regroup(a: real, f: real, p: real)
    ensures a * (f * p) == a * p * f
  {}

  lemma Scale(x: real, f: real)
    requires x >= 0.0 && f >= 0.0
    ensures x * f >= 0.0
    ensures f >= 1.0 ==> x * f >= x
    ensures f <= 1.0 ==> x * f <= x
  {}

  lemma {:induction false} UncappedStep(cfg: Config, k: nat)
    requires cfg.base >= 0.0 && cfg.factor >= 0.0
    ensures Uncapped(cfg, k) >= 0.0 && Uncapped(cfg, k + 1) == Uncapped(cfg, k) * cfg.factor
  {
    Regroup(cfg.base, cfg.factor, Pow(cfg.factor, k));
    if k > 0 {
      UncappedStep(cfg, k - 1);
      Scale(Uncapped(cfg, k - 1), cfg.factor);
    }
  }

  lemma CapAgain(cfg: Config, x: real, y: real)
    requires x >= 0.0 && cfg.max >= 0.0 && cfg.factor >= 0.0 && (cfg.factor < 1.0 ==> x <= cfg.max)
    requires y == x * cfg.factor
    ensures NextDelay(cfg, MinReal(x, cfg.max)) == MinReal(y, cfg.max)
    ensures cfg.factor < 1.0 ==> y <= cfg.max
  {
    Scale(x, cfg.factor);
    Scale(cfg.max, cfg.factor);
    if cfg.factor >= 1.0 && x > cfg.max {
      assert MinReal(cfg.max * cfg.factor, cfg.max) == cfg.max;
    }
  }

  lemma {:induction false} DelayIs(cfg: Config, k: nat)
    requires 0.0 <= cfg.base <= cfg.max && cfg.factor >= 0.0
    ensures Delay(cfg, k) == Capped(cfg, k)
    ensures cfg.factor < 1.0 ==> Uncapped(cfg, k) <= cfg.max
  {
    hide Uncapped, Delay, MinReal, NextDelay;
    if k == 0 {
      FirstDelay(cfg);
    } else {
      DelayNext(cfg, k - 1);
      DelayIs(cfg, k - 1);
      UncappedStep(cfg, k - 1);
      CapAgain(cfg, Uncapped(cfg, k - 1), Uncapped(cfg, k));
    }
  }

  lemma DelayNext(cfg: Config, k: nat)
    ensures Delay(cfg, k + 1) == NextDelay(cfg, Delay(cfg, k))
  {
    hide NextDelay;
  }

  /** Delay k is min(base * factor^k, max) for every k exactly when base does not exceed max: the first delay is
      not capped. */
  lemma DelayIff(cfg: Config)
    requires cfg.base >= 0.0 && cfg.factor >= 0.0
    ensures (forall k: nat :: Delay(cfg, k) == Capped(cfg, k)) <==> cfg.base <= cfg.max
  {
    hide Capped, Delay;
    FirstDelay(cfg);
    if cfg.base <= cfg.max {
      forall k: nat ensures Delay(cfg, k) == Capped(cfg, k) {
        DelayIs(cfg, k);
      }
    }
  }

  lemma FirstDelay(cfg: Config)
    ensures Delay(cfg, 0) == cfg.base == Uncapped(cfg, 0)
    ensures cfg.base <= cfg.max <==> Capped(cfg, 0) == cfg.base
  {
    assert cfg.base * 1.0 == cfg.base;
  }

  // ---- Do ----

  datatype Called<T> = Returned(value: T) | Raised(error: string)

  datatype Outcome<T> = Result(value: T) | LastError(error: string) | CircuitOpen | MaxRetries

  /** The first `n` calls all failed. */
  predicate AllRaised<T>(calls: seq<Called<T>>, n: nat)
    requires n <= |calls|
  {
    forall i | 0 <= i < n :: calls[i].Raised?
  }

  /** The breaker's history while `n` calls fail: asked at `clock[2 * i]`, told at `clock[2 * i + 1]`. */
  function Failing(clock: seq<int>, n: nat): seq<Op>
    requires 2 * n <= |clock|
  {
    if n == 0 then [] else Failing(clock, n - 1) + [Op.Allow(clock[2 * n - 2]), Op.Failure(clock[2 * n - 1])]
  }

  /** What the breaker goes through in a whole run of Do. */
  function History<T>(clock: seq<int>, calls: nat, r: Outcome<T>): seq<Op>
    requires 2 * calls <= |clock| && (r.CircuitOpen? ==> 2 * calls < |clock|) && (r.Result? ==> calls > 0)
  {
    match r
    case CircuitOpen => Failing(clock, calls) + [Op.Allow(clock[2 * calls])]
    case Result(_) => Failing(clock, calls - 1) + [Op.Allow(clock[2 * calls - 2]), Op.Success]
    case _ => Failing(clock, calls)
  }

  lemma FinalTwo(b: Breaker, s: State, ops: seq<Op>, x: Op, y: Op)
    ensures Final(b, s, ops + [x, y]) == Step(b, Step(b, Final(b, s, ops), x), y)
  {
    assert ops + [x, y] == ops + [x] + [y];
    RunSnoc(b, s, ops, x);
    RunSnoc(b, s, ops + [x], y);
  }

  /** `script` is what the function does when called for the first, second, ... time; `slept` collects the delays
      before jitter. */
  method Do<T>(cfg: Config, breaker: CircuitBreaker?, script: seq<Called<T>>, clock: seq<int>)
      returns (r: Outcome<T>, attempts: int, calls: nat, slept: seq<real>)
    requires cfg.maxAttempts <= |script| && 2 * cfg.maxAttempts <= |clock|
    modifies breaker
    ensures calls <= if cfg.maxAttempts < 0 then 0 else cfg.maxAttempts
    ensures calls <= |script|
    ensures attempts == if cfg.maxAttempts < 0 then cfg.maxAttempts else calls
    ensures match r
            case Result(v) => calls > 0 && AllRaised(script, calls - 1) && script[calls - 1] == Returned(v)
            case LastError(e) =>
              calls == cfg.maxAttempts > 0 && AllRaised(script, calls) && script[calls - 1] == Raised(e)
            case CircuitOpen => calls < cfg.maxAttempts && AllRaised(script, calls) && breaker != null
            case MaxRetries => cfg.maxAttempts <= 0
    ensures |slept| == if r.CircuitOpen? || calls == 0 then calls else calls - 1
    ensures forall k | 0 <= k < |slept| :: slept[k] == Delay(cfg, k)
    ensures 2 * calls <= |clock| && (r.CircuitOpen? ==> 2 * calls < |clock|)
    ensures breaker != null ==>
              breaker.View() == Final(breaker.Config(), old(breaker.View()), History(clock, calls, r))
    ensures breaker != null ==> forall k | 0 <= k < calls ::
              Grants(breaker.Config(), Final(breaker.Config(), old(breaker.View()), Failing(clock, k)), clock[2 * k])
    ensures r.CircuitOpen? ==>
              !Grants(breaker.Config(),
                      Final(breaker.Config(), old(breaker.View()), Failing(clock, calls)), clock[2 * calls])
  {
    hide Final, Step, Grants, Failing, History, Delay, NextDelay;
    var delay := cfg.base;
    calls, slept := 0, [];
    ghost var start := if breaker == null then INIT else breaker.View();
    ghost var b := if breaker == null then Breaker(0, 0) else breaker.Config();
    NothingYet(b, start, clock, cfg);
    var attempt := 0;
    while attempt < cfg.maxAttempts
      invariant attempt == calls == |slept|
      invariant attempt > 0 ==> attempt < cfg.maxAttempts
      invariant AllRaised(script, calls)
      invariant delay == Delay(cfg, attempt)
      invariant forall k | 0 <= k < |slept| :: slept[k] == Delay(cfg, k)
      invariant breaker != null ==> breaker.View() == Final(b, start, Failing(clock, calls))
      invariant breaker != null ==>
                  forall k | 0 <= k < calls :: Grants(b, Final(b, start, Failing(clock, k)), clock[2 * k])
    {
      Advance(b, start, clock, attempt, script[attempt]);
      DelayNext(cfg, attempt);
      if breaker != null {
        var ok := breaker.Allow(clock[2 * attempt]);
        if !ok {
          return CircuitOpen, attempt, calls, slept;
        }
      }
      var result := script[attempt];
      calls := calls + 1;
      if result.Returned? {
        if breaker != null {
          breaker.Success();
        }
        return Result(result.value), attempt + 1, calls, slept;
      }
      if breaker != null {
        breaker.Failure(clock[2 * attempt + 1]);
      }
      if attempt == cfg.maxAttempts - 1 {
        HistoryFailed<T>(clock, calls, result.error);
        return LastError(result.error), attempt + 1, calls, slept;
      }
      slept := slept + [delay];
      delay := NextDelay(cfg, delay);
      attempt := attempt + 1;
    }
    HistoryFailed<T>(clock, calls, "");
    return MaxRetries, cfg.maxAttempts, calls, slept;
  }

  predicate Monotone(clock: seq<int>)
  {
    (forall i, j | 0 <= i <= j < |clock| :: clock[i] <= clock[j]) && (|clock| > 0 ==> clock[0] >= INIT.now)
  }

  lemma {:induction false} FailingRun(b: Breaker, clock: seq<int>, n: nat)
    requires 2 * n <= |clock| && Monotone(clock)
    ensures Run(b, INIT, Failing(clock, n)) && Consecutive(Failing(clock, n)) == n
    ensures Final(b, INIT, Failing(clock, n)).now == if n == 0 then INIT.now else clock[2 * n - 1]
    ensures n > 0 ==> LastFailure(Failing(clock, n)) == clock[2 * n - 1]
  {
    if n > 0 {
      hide Run, Final;
      var ops, x, y := Failing(clock, n - 1), Op.Allow(clock[2 * n - 2]), Op.Failure(clock[2 * n - 1]);
      FailingRun(b, clock, n - 1);
      assert ops + [x, y] == ops + [x] + [y];
      RunSnoc(b, INIT, ops, x);
      RunSnoc(b, INIT, ops + [x], y);
      assert (ops + [x] + [y])[..|ops| + 1] == ops + [x] && (ops + [x])[..|ops|] == ops;
    }
  }

  /** Behind a new breaker Do makes another call, after `n` that failed, exactly when these are fewer than the
      threshold (or none) or the wait since the last one is over. */
  lemma NextCallIff(b: Breaker, clock: seq<int>, n: nat)
    requires 2 * n < |clock| && Monotone(clock)
    ensures Grants(b, Final(b, INIT, Failing(clock, n)), clock[2 * n]) <==>
            n == 0 || n < b.threshold || clock[2 * n] - clock[2 * n - 1] > b.halfOpenWait
  {
    hide Run, Final, Failing, Consecutive, LastFailure;
    FailingRun(b, clock, n);
    RefusedIff(b, Failing(clock, n), clock[2 * n]);
  }

  lemma HistoryFailed<T>(clock: seq<int>, calls: nat, error: string)
    requires 2 * calls <= |clock|
    ensures History<T>(clock, calls, LastError(error)) == History<T>(clock, calls, MaxRetries) == Failing(clock, calls)
  {}

  /** The breaker after attempt `n`, however it goes. */
  lemma Advance<T>(b: Breaker, s: State, clock: seq<int>, n: nat, result: Called<T>)
    requires 2 * n + 2 <= |clock|
    ensures var s1 := Step(b, Final(b, s, Failing(clock, n)), Op.Allow(clock[2 * n]));
            && Final(b, s, History<T>(clock, n, CircuitOpen)) == s1
            && (result.Returned? ==>
                  Final(b, s, History<T>(clock, n + 1, Result(result.value))) == Step(b, s1, Op.Success))
            && Final(b, s, Failing(clock, n + 1)) == Step(b, s1, Op.Failure(clock[2 * n + 1]))
  {
    hide Final, Step, History, Failing;
    var ops := Failing(clock, n);
    RunSnoc(b, s, ops, Op.Allow(clock[2 * n]));
    FinalTwo(b, s, ops, Op.Allow(clock[2 * n]), Op.Success);
    FinalTwo(b, s, ops, Op.Allow(clock[2 * n]), Op.Failure(clock[2 * n + 1]));
    FailingIs<T>(clock, n);
    if result.Returned? {
      ReturnedIs(clock, n, result.value);
    }
  }

  lemma ReturnedIs<T>(clock: seq<int>, calls: nat, value: T)
    requires 2 * calls + 2 <= |clock|
    ensures History<T>(clock, calls + 1, Result(value))
            == Failing(clock, calls) + [Op.Allow(clock[2 * calls]), Op.Success]
  {}

  lemma FailingIs<T>(clock: seq<int>, calls: nat)
    requires 2 * calls + 2 <= |clock|
    ensures History<T>(clock, calls, CircuitOpen) == Failing(clock, calls) + [Op.Allow(clock[2 * calls])]
    ensures Failing(clock, calls + 1)
            == Failing(clock, calls) + [Op.Allow(clock[2 * calls]), Op.Failure(clock[2 * calls + 1])]
  {}

  lemma NothingYet(b: Breaker, s: State, clock: seq<int>, cfg: Config)
    ensures Final(b, s, Failing(clock, 0)) == s && Delay(cfg, 0) == cfg.base
  {}
}
