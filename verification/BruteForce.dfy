/** The login limiter: failures counted in a window that starts with the first of them, and a
    lock once there are enough. A missing lock time stands for the zero time, before every clock reading. */
module BruteForce {
  import opened Wrappers
  import opened Tables

  const CAP := 100_000

  datatype Policy = Policy(maxFailures: int, lock: nat, window: nat)

  datatype Entry = Entry(count: nat, firstTry: int, lockedUntil: Option<int>)

  datatype State = State(entries: map<string, Entry>, now: int)

  const INIT := State(map[], 0)

  /** One critical section. A failure reads the clock to create an entry (`t0`), to measure its age
      (`t1`), to restart its window (`t2`) and to lock it (`t3`). */
  datatype Op =
    | Attempt(ip: string, at: int)
    | Failure(ip: string, t0: int, t1: int, t2: int, t3: int)
    | Success(ip: string)
    | Cleanup(at: int)
    | Wait(until: int)

  predicate CanStep(s: State, op: Op)
  {
    match op
    case Attempt(_, at) => s.now <= at
    case Failure(_, t0, t1, t2, t3) => s.now <= t0 <= t1 <= t2 <= t3
    case Success(_) => true
    case Cleanup(at) => s.now <= at
    case Wait(until) => s.now <= until
  }

  predicate Expired(e: Entry, t: int)
  {
    e.lockedUntil.None? || e.lockedUntil.value < t
  }

  predicate Stale(p: Policy, e: Entry, t: int)
  {
    Expired(e, t) && t - e.firstTry > 2 * p.window
  }

  function StaleKeys(p: Policy, s: State, t: int): set<string>
  {
    set ip | ip in s.entries && Stale(p, s.entries[ip], t)
  }

  /** An entry after one more failure. */
  function Counted(p: Policy, e: Entry, op: Op): Entry
    requires op.Failure?
  {
    var e' := if op.t1 - e.firstTry > p.window then e.(count := 1, firstTry := op.t2) else e.(count := e.count + 1);
    if e'.count >= p.maxFailures then e'.(lockedUntil := Some(op.t3 + p.lock)) else e'
  }

  function Known(s: State, op: Op): Entry
    requires op.Failure?
  {
    if op.ip in s.entries then s.entries[op.ip] else Entry(0, op.t0, None)
  }

  predicate Full(s: State, ip: string)
  {
    ip !in s.entries && |s.entries| >= CAP
  }

  function Step(p: Policy, s: State, op: Op): State
  {
    match op
    case Attempt(_, at) => s.(now := at)
    case Wait(until) => s.(now := until)
    case Success(ip) => s.(entries := s.entries - {ip})
    case Cleanup(at) => State(s.entries - StaleKeys(p, s, at), at)
    case Failure(ip, _, _, _, t3) =>
      if Full(s, ip) then s.(now := t3) else State(s.entries[ip := Counted(p, Known(s, op), op)], t3)
  }

  /** Whether an attempt is turned away before the login handler runs. */
  predicate Rejected(s: State, ip: string, at: int)
  {
    ip in s.entries && s.entries[ip].lockedUntil.Some? && at < s.entries[ip].lockedUntil.value
  }

  ghost predicate Inv(p: Policy, s: State)
  {
    && |s.entries| <= CAP
    && forall ip <- s.entries ::
         var e := s.entries[ip];
         e.count >= 1 && e.firstTry <= s.now && (e.lockedUntil.Some? ==> e.lockedUntil.value <= s.now + p.lock)
  }

  lemma CountedInv(p: Policy, s: State, op: Op)
    requires Inv(p, s) && CanStep(s, op) && op.Failure?
    ensures var e := Counted(p, Known(s, op), op);
            e.count >= 1 && e.firstTry <= op.t3 && (e.lockedUntil.Some? ==> e.lockedUntil.value <= op.t3 + p.lock)
  {}

  lemma FailureInv(p: Policy, s: State, op: Op)
    requires Inv(p, s) && CanStep(s, op) && op.Failure?
    ensures Inv(p, Step(p, s, op))
  {
    hide Counted, Known;
    CountedInv(p, s, op);
    Growth(s.entries, op.ip, Counted(p, Known(s, op), op));
  }

  lemma FewerEntriesInv(p: Policy, s: State, gone: set<string>, now: int)
    requires Inv(p, s) && s.now <= now
    ensures Inv(p, State(s.entries - gone, now))
  {
    Shrinks(s.entries, gone);
  }

  /** Every entry counts a failure, no lock outlasts the lock duration, and the table stays within its cap. */
  lemma StepInv(p: Policy, s: State, op: Op)
    requires Inv(p, s) && CanStep(s, op)
    ensures Inv(p, Step(p, s, op)) && Step(p, s, op).now >= s.now
  {
    hide Inv, Counted, Known, Stale;
    match op
    case Failure(_, _, _, _, _) => FailureInv(p, s, op);
    case Cleanup(at) => FewerEntriesInv(p, s, StaleKeys(p, s, at), at);
    case Success(ip) => FewerEntriesInv(p, s, {ip}, s.now);
    case Attempt(_, at) => SameEntriesInv(p, s, at);
    case Wait(until) => SameEntriesInv(p, s, until);
  }

  lemma SameEntriesInv(p: Policy, s: State, now: int)
    requires Inv(p, s) && s.now <= now
    ensures Inv(p, s.(now := now))
  {}

  // ---- Runs ----

  predicate Run(p: Policy, s: State, ops: seq<Op>)
    decreases |ops|
  {
    ops == [] || (CanStep(s, ops[0]) && Run(p, Step(p, s, ops[0]), ops[1..]))
  }

  function Final(p: Policy, s: State, ops: seq<Op>): State
    decreases |ops|
  {
    if ops == [] then s else Final(p, Step(p, s, ops[0]), ops[1..])
  }

  lemma {:induction false} RunInv(p: Policy, s: State, ops: seq<Op>)
    requires Inv(p, s) && Run(p, s, ops)
    ensures Inv(p, Final(p, s, ops)) && Final(p, s, ops).now >= s.now
    decreases |ops|
  {
    hide Step, Inv, CanStep;
    if ops != [] {
      StepInv(p, s, ops[0]);
      RunInv(p, Step(p, s, ops[0]), ops[1..]);
    }
  }

  lemma Unroll(p: Policy, s: State, op: Op, rest: seq<Op>)
    ensures Run(p, s, [op] + rest) <==> CanStep(s, op) && Run(p, Step(p, s, op), rest)
    ensures Final(p, s, [op] + rest) == Final(p, Step(p, s, op), rest)
  {
    assert ([op] + rest)[1..] == rest;
  }

  lemma {:induction false} RunConcat(p: Policy, s: State, ops: seq<Op>, ops': seq<Op>)
    ensures Run(p, s, ops + ops') <==> Run(p, s, ops) && Run(p, Final(p, s, ops), ops')
    ensures Final(p, s, ops + ops') == Final(p, Final(p, s, ops), ops')
    decreases |ops|
  {
    hide Step, CanStep;
    if ops == [] {
      assert [] + ops' == ops';
    } else {
      assert (ops + ops')[1..] == ops[1..] + ops';
      RunConcat(p, Step(p, s, ops[0]), ops[1..], ops');
    }
  }

  // ---- A lock is earned ----

  /** The failure was recorded at some moment of [from, to]. */
  predicate FailsWithin(op: Op, ip: string, from: int, to: int)
  {
    op.Failure? && op.ip == ip && op.t0 <= to && from <= op.t3
  }

  function FailuresWithin(ops: seq<Op>, ip: string, from: int, to: int): nat
  {
    if ops == [] then 0
    else FailuresWithin(ops[..|ops| - 1], ip, from, to) + if FailsWithin(ops[|ops| - 1], ip, from, to) then 1 else 0
  }

  predicate NoSuccess(ops: seq<Op>, ip: string)
  {
    forall i | 0 <= i < |ops| :: ops[i] != Success(ip)
  }

  /** The history since `j` holds every failure the entry counts, and no success. */
  predicate TalliedSince(p: Policy, hist: seq<Op>, ip: string, e: Entry, j: nat)
  {
    && j <= |hist| && NoSuccess(hist[j..], ip)
    && FailuresWithin(hist[j..], ip, e.firstTry, e.firstTry + p.window) >= e.count
  }

  /** The failure before position `n` locked until `until`; from `j` up to it there were enough failures inside
      one window beginning at `start`, and from `j` on there was no success. */
  predicate EarnedBy(p: Policy, hist: seq<Op>, ip: string, until: int, j: nat, n: nat, start: int)
  {
    && j < n <= |hist|
    && hist[n - 1].Failure? && hist[n - 1].ip == ip && hist[n - 1].t3 + p.lock == until
    && NoSuccess(hist[j..], ip)
    && FailuresWithin(hist[j..n], ip, start, start + p.window) >= p.maxFailures
  }

  ghost predicate Explained(p: Policy, hist: seq<Op>, ip: string, e: Entry)
  {
    && (exists j :: TalliedSince(p, hist, ip, e, j))
    && (e.lockedUntil.Some? ==> exists j, n, start :: EarnedBy(p, hist, ip, e.lockedUntil.value, j, n, start))
  }

  lemma FailuresSnoc(ops: seq<Op>, op: Op, ip: string, from: int, to: int)
    ensures FailuresWithin(ops + [op], ip, from, to) ==
            FailuresWithin(ops, ip, from, to) + if FailsWithin(op, ip, from, to) then 1 else 0
  {
    assert (ops + [op])[..|ops|] == ops;
  }

  lemma TalliedLater(p: Policy, hist: seq<Op>, op: Op, ip: string, e: Entry, j: nat)
    requires TalliedSince(p, hist, ip, e, j) && op != Success(ip)
    ensures TalliedSince(p, hist + [op], ip, e, j)
    ensures FailsWithin(op, ip, e.firstTry, e.firstTry + p.window) ==>
              TalliedSince(p, hist + [op], ip, e.(count := e.count + 1), j)
  {
    hide FailuresWithin;
    assert (hist + [op])[j..] == hist[j..] + [op];
    FailuresSnoc(hist[j..], op, ip, e.firstTry, e.firstTry + p.window);
  }

  lemma EarnedLater(p: Policy, hist: seq<Op>, op: Op, ip: string, until: int, j: nat, n: nat, start: int)
    requires EarnedBy(p, hist, ip, until, j, n, start) && op != Success(ip)
    ensures EarnedBy(p, hist + [op], ip, until, j, n, start)
  {
    hide FailuresWithin;
    assert (hist + [op])[j..] == hist[j..] + [op] && (hist + [op])[j..n] == hist[j..n];
  }

  lemma ExplainedLater(p: Policy, hist: seq<Op>, op: Op, ip: string, e: Entry)
    requires Explained(p, hist, ip, e) && op != Success(ip)
    ensures Explained(p, hist + [op], ip, e)
  {
    hide TalliedSince, EarnedBy;
    var j :| TalliedSince(p, hist, ip, e, j);
    TalliedLater(p, hist, op, ip, e, j);
    if e.lockedUntil.Some? {
      var j, n, start :| EarnedBy(p, hist, ip, e.lockedUntil.value, j, n, start);
      EarnedLater(p, hist, op, ip, e.lockedUntil.value, j, n, start);
    }
  }

  /** A failure just added to the count, possibly as the first of a new window. */
  lemma CountedTally(p: Policy, s: State, hist: seq<Op>, op: Op) returns (j: nat)
    requires op.Failure? && CanStep(s, op)
    requires op.ip in s.entries ==>
               s.entries[op.ip].firstTry <= s.now && exists j :: TalliedSince(p, hist, op.ip, s.entries[op.ip], j)
    ensures j <= |hist| && TalliedSince(p, hist + [op], op.ip, Counted(p, Known(s, op), op), j)
  {
    var e := Known(s, op);
    Fresh(p, hist, op.ip, e.(count := 0));
    Fresh(p, hist, op.ip, e.(count := 0, firstTry := op.t2));
    hide TalliedSince;
    if op.t1 - e.firstTry > p.window {
      j := |hist|;
      TalliedLater(p, hist, op, op.ip, e.(count := 0, firstTry := op.t2), j);
    } else if op.ip in s.entries {
      j :| TalliedSince(p, hist, op.ip, e, j);
      TalliedLater(p, hist, op, op.ip, e, j);
    } else {
      j := |hist|;
      TalliedLater(p, hist, op, op.ip, e, j);
    }
    assert TalliedSince(p, hist + [op], op.ip, Counted(p, e, op).(lockedUntil := e.lockedUntil), j);
    IgnoresLock(p, hist + [op], op.ip, Counted(p, e, op), e.lockedUntil, j);
  }

  lemma IgnoresLock(p: Policy, hist: seq<Op>, ip: string, e: Entry, lock: Option<int>, j: nat)
    ensures TalliedSince(p, hist, ip, e.(lockedUntil := lock), j) <==> TalliedSince(p, hist, ip, e, j)
  {}

  lemma Fresh(p: Policy, hist: seq<Op>, ip: string, e: Entry)
    requires e.count == 0
    ensures TalliedSince(p, hist, ip, e, |hist|)
  {}

  lemma CountedExplained(p: Policy, s: State, hist: seq<Op>, op: Op)
    requires op.Failure? && CanStep(s, op)
    requires op.ip in s.entries ==> s.entries[op.ip].firstTry <= s.now && Explained(p, hist, op.ip, s.entries[op.ip])
    ensures Explained(p, hist + [op], op.ip, Counted(p, Known(s, op), op))
  {
    hide FailuresWithin, NoSuccess;
    var e, e' := Known(s, op), Counted(p, Known(s, op), op);
    var j := CountedTally(p, s, hist, op);
    if e'.count >= p.maxFailures {
      var n, all := |hist| + 1, hist + [op];
      assert all[j..n] == all[j..];
      assert EarnedBy(p, all, op.ip, op.t3 + p.lock, j, n, e'.firstTry);
    } else if e.lockedUntil.Some? {
      ExplainedLater(p, hist, op, op.ip, e);
    }
  }

  ghost predicate AllExplained(p: Policy, s: State, hist: seq<Op>)
  {
    forall ip <- s.entries :: Explained(p, hist, ip, s.entries[ip])
  }

  lemma StepExplained(p: Policy, s: State, hist: seq<Op>, op: Op)
    requires Inv(p, s) && CanStep(s, op) && AllExplained(p, s, hist)
    ensures AllExplained(p, Step(p, s, op), hist + [op])
  {
    hide Explained, Counted, Known, Stale;
    var s' := Step(p, s, op);
    forall ip | ip in s'.entries ensures Explained(p, hist + [op], ip, s'.entries[ip]) {
      if op.Failure? && op.ip == ip && !Full(s, ip) {
        CountedExplained(p, s, hist, op);
      } else {
        ExplainedLater(p, hist, op, ip, s.entries[ip]);
      }
    }
  }

  lemma {:induction false} RunExplained(p: Policy, s: State, hist: seq<Op>, ops: seq<Op>)
    requires Inv(p, s) && Run(p, s, ops) && AllExplained(p, s, hist)
    ensures AllExplained(p, Final(p, s, ops), hist + ops)
    decreases |ops|
  {
    hide Inv, CanStep, Step, AllExplained;
    if ops == [] {
      assert hist + ops == hist;
    } else {
      StepInv(p, s, ops[0]);
      StepExplained(p, s, hist, ops[0]);
      RunExplained(p, Step(p, s, ops[0]), hist + [ops[0]], ops[1..]);
      assert (hist + [ops[0]]) + ops[1..] == hist + ops;
    }
  }

  /** An attempt is rejected only if `maxFailures` failures fell into one window, with no success since the
      first of them, and the last of them locked the peer. */
  lemma RejectionIsEarned(p: Policy, ops: seq<Op>, ip: string, at: int)
    requires Run(p, INIT, ops) && Rejected(Final(p, INIT, ops), ip, at)
    ensures exists until, j, n, start :: at < until && EarnedBy(p, ops, ip, until, j, n, start)
  {
    hide Run, Final, EarnedBy, TalliedSince;
    assert [] + ops == ops;
    RunExplained(p, INIT, [], ops);
    var e := Final(p, INIT, ops).entries[ip];
    assert Explained(p, ops, ip, e);
  }
}
