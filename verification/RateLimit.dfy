/** The per-client token bucket: its limits over whole runs, and why evicting idle clients cannot
    be noticed. Times are in seconds. */
module RateLimit {
  import opened Tables

  const CAP := 100_000
  const INTERVAL := 300.0

  datatype Limits = Limits(rate: nat, burst: nat)

  datatype Visitor = Visitor(tokens: real, lastCheck: real)

  datatype State = State(visitors: map<string, Visitor>, now: real)

  const INIT := State(map[], 0.0)

  /** One critical section. A request reads the clock up to three times: `t0` to create an entry,
      `t1` to refill it and `t2` to stamp it. A cleanup reads it once for each entry. */
  datatype Op =
    | Request(key: string, t0: real, t1: real, t2: real)
    | Cleanup(readings: map<string, real>, finished: real)
    | Wait(until: real)

  datatype Outcome = Allowed | Denied | Untracked | Quiet

  /** The clock does not run backwards. */
  predicate CanStep(s: State, op: Op)
  {
    match op
    case Request(_, t0, t1, t2) => s.now <= t0 <= t1 <= t2
    case Cleanup(readings, finished) =>
      s.now <= finished && s.visitors.Keys <= readings.Keys && forall k <- readings :: s.now <= readings[k] <= finished
    case Wait(until) => s.now <= until
  }

  function Credit(l: Limits, from: real, to: real): real
  {
    l.rate as real * (to - from)
  }

  function Refilled(l: Limits, v: Visitor, t: real): real
  {
    var tokens := v.tokens + Credit(l, v.lastCheck, t);
    if tokens > l.burst as real then l.burst as real else tokens
  }

  function Entry(l: Limits, s: State, key: string, t0: real): Visitor
  {
    if key in s.visitors then s.visitors[key] else Visitor(l.burst as real, t0)
  }

  predicate Idle(s: State, readings: map<string, real>, key: string)
  {
    key in s.visitors && key in readings && readings[key] - s.visitors[key].lastCheck > INTERVAL
  }

  function IdleKeys(s: State, readings: map<string, real>): set<string>
  {
    set k | k in s.visitors && Idle(s, readings, k)
  }

  predicate Full(s: State, key: string)
  {
    key !in s.visitors && |s.visitors| >= CAP
  }

  function Step(l: Limits, s: State, op: Op): State
  {
    match op
    case Wait(until) => s.(now := until)
    case Cleanup(readings, finished) => State(s.visitors - IdleKeys(s, readings), finished)
    case Request(key, t0, t1, t2) =>
      if Full(s, key) then s.(now := t2)
      else
        var tokens := Refilled(l, Entry(l, s, key, t0), t1);
        State(s.visitors[key := Visitor(if tokens < 1.0 then tokens else tokens - 1.0, t2)], t2)
  }

  function Answer(l: Limits, s: State, op: Op): Outcome
  {
    match op
    case Request(key, t0, t1, t2) =>
      if Full(s, key) then Untracked
      else if Refilled(l, Entry(l, s, key, t0), t1) < 1.0 then Denied
      else Allowed
    case _ => Quiet
  }

  // ---- What every step keeps ----

  ghost predicate Inv(l: Limits, s: State)
  {
    && |s.visitors| <= CAP
    && forall k <- s.visitors :: 0.0 <= s.visitors[k].tokens <= l.burst as real && s.visitors[k].lastCheck <= s.now
  }

  lemma Credits(l: Limits, a: real, b: real, c: real)
    ensures Credit(l, a, b) + Credit(l, b, c) == Credit(l, a, c)
    ensures a <= b ==> Credit(l, a, b) >= 0.0
  {}

  lemma RefilledRange(l: Limits, v: Visitor, t: real)
    requires 0.0 <= v.tokens <= l.burst as real && v.lastCheck <= t
    ensures v.tokens <= Refilled(l, v, t) <= l.burst as real
  {
    hide Credit;
    Credits(l, v.lastCheck, t, t);
  }

  lemma RequestInv(l: Limits, s: State, op: Op)
    requires Inv(l, s) && CanStep(s, op) && op.Request? && !Full(s, op.key)
    ensures Inv(l, Step(l, s, op))
  {
    hide Refilled;
    RefilledRange(l, Entry(l, s, op.key, op.t0), op.t1);
    Growth(s.visitors, op.key, Step(l, s, op).visitors[op.key]);
  }

  lemma FewerVisitorsInv(l: Limits, s: State, gone: set<string>, now: real)
    requires Inv(l, s) && s.now <= now
    ensures Inv(l, State(s.visitors - gone, now)) && Inv(l, s.(now := now))
  {
    Shrinks(s.visitors, gone);
  }

  /** The tokens of every client stay between 0 and the burst, and the table within its cap. */
  lemma StepInv(l: Limits, s: State, op: Op)
    requires Inv(l, s) && CanStep(s, op)
    ensures Inv(l, Step(l, s, op)) && Step(l, s, op).now >= s.now
  {
    hide Inv, Refilled, Idle;
    match op
    case Request(key, _, _, t2) =>
      if Full(s, key) {
        FewerVisitorsInv(l, s, {}, t2);
      } else {
        RequestInv(l, s, op);
      }
    case Cleanup(readings, finished) => FewerVisitorsInv(l, s, IdleKeys(s, readings), finished);
    case Wait(until) => FewerVisitorsInv(l, s, {}, until);
  }

  // ---- Runs ----

  predicate Run(l: Limits, s: State, ops: seq<Op>)
    decreases |ops|
  {
    ops == [] || (CanStep(s, ops[0]) && Run(l, Step(l, s, ops[0]), ops[1..]))
  }

  function Final(l: Limits, s: State, ops: seq<Op>): State
    decreases |ops|
  {
    if ops == [] then s else Final(l, Step(l, s, ops[0]), ops[1..])
  }

  function Answers(l: Limits, s: State, ops: seq<Op>): (r: seq<Outcome>)
    ensures |r| == |ops|
    decreases |ops|
  {
    if ops == [] then [] else [Answer(l, s, ops[0])] + Answers(l, Step(l, s, ops[0]), ops[1..])
  }

  predicate Admits(l: Limits, s: State, op: Op, key: string)
  {
    op.Request? && op.key == key && Answer(l, s, op) == Allowed
  }

  /** Requests of `key` that were charged for and let through. */
  function Admitted(l: Limits, s: State, ops: seq<Op>, key: string): nat
    decreases |ops|
  {
    if ops == [] then 0
    else Admitted(l, Step(l, s, ops[0]), ops[1..], key) + if Admits(l, s, ops[0], key) then 1 else 0
  }

  lemma {:induction false} RunInv(l: Limits, s: State, ops: seq<Op>)
    requires Inv(l, s) && Run(l, s, ops)
    ensures Inv(l, Final(l, s, ops)) && Final(l, s, ops).now >= s.now
    decreases |ops|
  {
    hide Step, Inv, CanStep;
    if ops != [] {
      StepInv(l, s, ops[0]);
      RunInv(l, Step(l, s, ops[0]), ops[1..]);
    }
  }

  // ---- The bound ----

  /** What `key` could spend at time `t`; an unknown client has the whole burst. */
  function Level(l: Limits, s: State, key: string, t: real): real
  {
    if key in s.visitors then Refilled(l, s.visitors[key], t) else l.burst as real
  }

  /** Enough credit flows in one cleanup interval to fill any bucket. */
  predicate Refills(l: Limits)
  {
    l.burst as real <= l.rate as real * INTERVAL
  }

  predicate NeverCleans(ops: seq<Op>)
  {
    forall i | 0 <= i < |ops| :: !ops[i].Cleanup?
  }

  lemma RefilledLater(l: Limits, v: Visitor, t: real, t': real)
    requires t <= t'
    ensures Refilled(l, v, t) <= Refilled(l, v, t') <= Refilled(l, v, t) + Credit(l, t, t')
  {
    hide Credit;
    Credits(l, v.lastCheck, t, t');
    Credits(l, t, t', t');
  }

  /** An entry old enough to be evicted is full again. */
  lemma IdleIsFull(l: Limits, v: Visitor, t: real)
    requires Refills(l) && v.tokens >= 0.0 && t - v.lastCheck > INTERVAL
    ensures Refilled(l, v, t) == l.burst as real
  {
    hide Credit;
    LongCredit(l, v.lastCheck, t);
  }

  lemma LongCredit(l: Limits, from: real, to: real)
    requires to - from > INTERVAL
    ensures Credit(l, from, to) >= l.rate as real * INTERVAL
  {
    MoreCredit(l.rate as real, INTERVAL, to - from);
  }

  lemma MoreCredit(rate: real, a: real, b: real)
    requires rate >= 0.0 && a <= b
    ensures rate * a <= rate * b
  {}

  lemma JustStamped(l: Limits, v: Visitor)
    requires v.tokens <= l.burst as real
    ensures Refilled(l, v, v.lastCheck) == v.tokens
  {
    hide Credit;
    Credits(l, v.lastCheck, v.lastCheck, v.lastCheck);
  }

  /** No step gives a client more than the credit of the time it took. */
  lemma StepPays(l: Limits, s: State, op: Op, key: string)
    requires Inv(l, s) && CanStep(s, op) && (Refills(l) || !op.Cleanup?)
    ensures var s' := Step(l, s, op);
            Level(l, s', key, s'.now) + (if Admits(l, s, op, key) then 1.0 else 0.0)
              <= Level(l, s, key, s.now) + Credit(l, s.now, s'.now)
  {
    hide Refilled, Credit, Refills;
    var s' := Step(l, s, op);
    Credits(l, s.now, s'.now, s'.now);
    if key in s.visitors {
      RefilledLater(l, s.visitors[key], s.now, s'.now);
    }
    if op.Request? && op.key == key && !Full(s, key) {
      RequestPays(l, s, op);
    } else if op.Cleanup? && Idle(s, op.readings, key) {
      IdleIsFull(l, s.visitors[key], op.readings[key]);
      RefilledLater(l, s.visitors[key], op.readings[key], s'.now);
      RefilledRange(l, s.visitors[key], s'.now);
    }
  }

  lemma RequestPays(l: Limits, s: State, op: Op)
    requires Inv(l, s) && CanStep(s, op) && op.Request? && !Full(s, op.key)
    ensures var s' := Step(l, s, op);
            Level(l, s', op.key, s'.now) + (if Admits(l, s, op, op.key) then 1.0 else 0.0)
              == Level(l, s, op.key, op.t1) <= Level(l, s, op.key, s.now) + Credit(l, s.now, op.t1)
              <= Level(l, s, op.key, s.now) + Credit(l, s.now, s'.now)
  {
    hide Refilled, Credit;
    var e := Entry(l, s, op.key, op.t0);
    RefilledRange(l, e, op.t1);
    var v' := Step(l, s, op).visitors[op.key];
    JustStamped(l, v');
    Credits(l, s.now, op.t1, op.t2);
    Credits(l, op.t1, op.t2, op.t2);
    Credits(l, s.now, op.t1, op.t1);
    if op.key in s.visitors {
      RefilledLater(l, e, s.now, op.t1);
    }
  }

  lemma {:induction false} RunPays(l: Limits, s: State, ops: seq<Op>, key: string)
    requires Inv(l, s) && Run(l, s, ops) && (Refills(l) || NeverCleans(ops))
    ensures var s' := Final(l, s, ops);
            Admitted(l, s, ops, key) as real + Level(l, s', key, s'.now)
              <= Level(l, s, key, s.now) + Credit(l, s.now, s'.now)
    decreases |ops|
  {
    hide Step, Credit, Level, Admits, Inv, CanStep, Refills;
    if ops == [] {
      Credits(l, s.now, s.now, s.now);
    } else {
      var s1 := Step(l, s, ops[0]);
      StepPays(l, s, ops[0], key);
      StepInv(l, s, ops[0]);
      RunPays(l, s1, ops[1..], key);
      Credits(l, s.now, s1.now, Final(l, s, ops).now);
    }
  }

  lemma LevelRange(l: Limits, s: State, key: string)
    requires Inv(l, s)
    ensures 0.0 <= Level(l, s, key, s.now) <= l.burst as real
  {
    hide Refilled;
    if key in s.visitors {
      RefilledRange(l, s.visitors[key], s.now);
    }
  }

  /** Over any stretch of a run a client is let through at most burst + rate * time times. */
  lemma AdmittedAtMost(l: Limits, s: State, ops: seq<Op>, key: string)
    requires Inv(l, s) && Run(l, s, ops) && (Refills(l) || NeverCleans(ops))
    ensures Admitted(l, s, ops, key) as real <= l.burst as real + Credit(l, s.now, Final(l, s, ops).now)
  {
    hide Credit, Level, Refills, Inv;
    RunPays(l, s, ops, key);
    RunInv(l, s, ops);
    LevelRange(l, s, key);
    LevelRange(l, Final(l, s, ops), key);
  }

  // ---- The bound fails exactly when a bucket takes longer than the interval to fill ----

  predicate Bounded(l: Limits, s: State, ops: seq<Op>, key: string)
  {
    Admitted(l, s, ops, key) as real <= l.burst as real + Credit(l, s.now, Final(l, s, ops).now)
  }

  function Burst(key: string, t: real, n: nat): (ops: seq<Op>)
    ensures |ops| == n && forall i | 0 <= i < n :: ops[i] == Request(key, t, t, t)
  {
    if n == 0 then [] else [Request(key, t, t, t)] + Burst(key, t, n - 1)
  }

  /** `n` tokens let `n` simultaneous requests through. */
  lemma {:induction false} BurstRuns(l: Limits, s: State, key: string, t: real, n: nat)
    requires key in s.visitors || |s.visitors| < CAP
    requires s.now <= t && Level(l, s, key, t) >= n as real
    ensures Run(l, s, Burst(key, t, n)) && Admitted(l, s, Burst(key, t, n), key) == n
    ensures var s' := Final(l, s, Burst(key, t, n));
            s'.visitors.Keys == s.visitors.Keys + (if n > 0 then {key} else {}) &&
            (n > 0 ==> s'.now == t && s'.visitors[key].lastCheck == t)
    decreases n
  {
    if n > 0 {
      hide Refilled, Final, Admitted, Run;
      var op := Request(key, t, t, t);
      var s1, rest := Step(l, s, op), Burst(key, t, n - 1);
      assert Burst(key, t, n) == [op] + rest;
      BurstStep(l, s, key, t);
      BurstRuns(l, s1, key, t, n - 1);
      Unroll(l, s, op, rest, key);
      if n == 1 {
        RunNothing(l, s1);
      }
    }
  }

  lemma RunNothing(l: Limits, s: State)
    ensures Final(l, s, []) == s
  {}

  lemma Unroll(l: Limits, s: State, op: Op, rest: seq<Op>, key: string)
    ensures Run(l, s, [op] + rest) <==> CanStep(s, op) && Run(l, Step(l, s, op), rest)
    ensures Final(l, s, [op] + rest) == Final(l, Step(l, s, op), rest)
    ensures Admitted(l, s, [op] + rest, key) ==
            Admitted(l, Step(l, s, op), rest, key) + if Admits(l, s, op, key) then 1 else 0
    ensures Answers(l, s, [op] + rest) == [Answer(l, s, op)] + Answers(l, Step(l, s, op), rest)
  {
    assert ([op] + rest)[1..] == rest;
  }

  lemma BurstStep(l: Limits, s: State, key: string, t: real)
    requires (key in s.visitors || |s.visitors| < CAP) && Level(l, s, key, t) >= 1.0
    ensures var op := Request(key, t, t, t); var s1 := Step(l, s, op);
            && Admits(l, s, op, key) && s1.now == t && s1.visitors.Keys == s.visitors.Keys + {key}
            && s1.visitors[key].lastCheck == t && Level(l, s1, key, t) == Level(l, s, key, t) - 1.0
  {
    hide Refilled;
    NewIsFull(l, t, t);
    BucketLimit(l, Entry(l, s, key, t), t);
    JustStamped(l, Step(l, s, Request(key, t, t, t)).visitors[key]);
  }

  lemma BucketLimit(l: Limits, v: Visitor, t: real)
    ensures Refilled(l, v, t) <= l.burst as real
  {}

  lemma NewIsFull(l: Limits, t0: real, t1: real)
    requires t0 <= t1
    ensures Refilled(l, Visitor(l.burst as real, t0), t1) == l.burst as real
  {
    hide Credit;
    Credits(l, t0, t1, t1);
  }

  lemma {:induction false} RunConcat(l: Limits, s: State, ops: seq<Op>, ops': seq<Op>, key: string)
    ensures Run(l, s, ops + ops') <==> Run(l, s, ops) && Run(l, Final(l, s, ops), ops')
    ensures Final(l, s, ops + ops') == Final(l, Final(l, s, ops), ops')
    ensures Admitted(l, s, ops + ops', key) == Admitted(l, s, ops, key) + Admitted(l, Final(l, s, ops), ops', key)
    decreases |ops|
  {
    hide Step, CanStep, Admits;
    if ops == [] {
      assert [] + ops' == ops';
    } else {
      assert (ops + ops')[1..] == ops[1..] + ops';
      RunConcat(l, Step(l, s, ops[0]), ops[1..], ops', key);
    }
  }

  /** The moment after which a bucket emptied at time 0 is evicted before it has refilled. */
  function TooEarly(l: Limits): real
  {
    INTERVAL + (if l.rate == 0 then 1.0 else (l.burst as real - l.rate as real * INTERVAL) / (2.0 * l.rate as real))
  }

  /** A burst, an eviction as soon as the entry is idle, and a burst again. */
  function Overrun(l: Limits, key: string): seq<Op>
  {
    var t := TooEarly(l);
    Burst(key, 0.0, l.burst) + ([Cleanup(map[key := t], t)] + Burst(key, t, l.burst))
  }

  lemma TooEarlyIs(l: Limits)
    requires !Refills(l)
    ensures TooEarly(l) > INTERVAL && Credit(l, 0.0, TooEarly(l)) < l.burst as real
  {
    if l.rate > 0 {
      var r, gap := l.rate as real, l.burst as real - l.rate as real * INTERVAL;
      var e := gap / (2.0 * r);
      assert r * e == gap / 2.0;
      assert r * (INTERVAL + e) == r * INTERVAL + gap / 2.0;
    }
  }

  lemma OverrunAdmits(l: Limits, key: string)
    requires !Refills(l)
    ensures Run(l, INIT, Overrun(l, key)) && Admitted(l, INIT, Overrun(l, key), key) == 2 * l.burst
    ensures Final(l, INIT, Overrun(l, key)).now == TooEarly(l)
  {
    hide Run, Final, Admitted, Refilled, TooEarly, Credit;
    TooEarlyIs(l);
    PositiveBurst(l);
    var t, first, second := TooEarly(l), Burst(key, 0.0, l.burst), Burst(key, TooEarly(l), l.burst);
    var op := Cleanup(map[key := t], t);
    BurstRuns(l, INIT, key, 0.0, l.burst);
    var s1 := Final(l, INIT, first);
    var s2 := Step(l, s1, op);
    BurstRuns(l, s2, key, t, l.burst);
    Unroll(l, s1, op, second, key);
    RunConcat(l, INIT, first, [op] + second, key);
  }

  lemma PositiveBurst(l: Limits)
    requires !Refills(l)
    ensures l.burst > 0
  {}

  /** Every run keeps the bound exactly when a bucket refills within the cleanup interval. */
  lemma BoundedIff(l: Limits)
    ensures Refills(l) <==> forall s, ops, key | Inv(l, s) && Run(l, s, ops) :: Bounded(l, s, ops, key)
  {
    hide Run, Admitted, Final, Inv, Refills, Credit;
    if Refills(l) {
      forall s, ops, key | Inv(l, s) && Run(l, s, ops) ensures Bounded(l, s, ops, key) {
        AdmittedAtMost(l, s, ops, key);
      }
    } else {
      OverrunAdmits(l, "");
      InitInv(l);
      TooEarlyIs(l);
      assert !Bounded(l, INIT, Overrun(l, ""), "");
    }
  }

  lemma InitInv(l: Limits)
    ensures Inv(l, INIT)
  {}
}
