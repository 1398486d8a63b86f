/** A lock holds until it runs out or a login succeeds; how many failures always lock; and when
    clearing stale entries cannot be noticed. */
module BruteForceLaws {
  import opened Wrappers
  import opened BruteForce
  import opened Tables

  // ---- A lock holds ----

  predicate LockedUntil(s: State, ip: string, until: int)
  {
    ip in s.entries && s.entries[ip].lockedUntil.Some? && s.entries[ip].lockedUntil.value >= until
  }

  /** A single step before the lock runs out lifts it exactly when it is a success of the peer. */
  lemma LockKept(p: Policy, s: State, op: Op, ip: string, until: int)
    requires Inv(p, s) && CanStep(s, op) && LockedUntil(s, ip, until) && Step(p, s, op).now < until
    ensures LockedUntil(Step(p, s, op), ip, until) <==> op != Success(ip)
  {}

  /** While no login of the peer succeeds, it stays locked through failures, cleanups and everyone else's logins. */
  lemma {:induction false} LockHolds(p: Policy, s: State, ops: seq<Op>, ip: string, until: int)
    requires Inv(p, s) && Run(p, s, ops) && LockedUntil(s, ip, until)
    requires NoSuccess(ops, ip) && Final(p, s, ops).now < until
    ensures LockedUntil(Final(p, s, ops), ip, until)
    ensures forall i | 0 <= i < |ops| && ops[i].Attempt? && ops[i].ip == ip ::
              Rejected(Final(p, s, ops[..i]), ip, ops[i].at)
    decreases |ops|
  {
    hide Step, Inv, CanStep, Rejected;
    if ops != [] {
      var op, rest := ops[0], ops[1..];
      var s1 := Step(p, s, op);
      StepInv(p, s, op);
      RunInv(p, s1, rest);
      LockKept(p, s, op, ip, until);
      LockHolds(p, s1, rest, ip, until);
      forall i | 0 <= i < |ops| && ops[i].Attempt? && ops[i].ip == ip
        ensures Rejected(Final(p, s, ops[..i]), ip, ops[i].at)
      {
        if i == 0 {
          RejectedNow(p, s, op, until);
        } else {
          assert ops[..i] == [op] + rest[..i - 1];
          Unroll(p, s, op, rest[..i - 1]);
        }
      }
    }
  }

  lemma RejectedNow(p: Policy, s: State, op: Op, until: int)
    requires op.Attempt? && LockedUntil(s, op.ip, until) && Step(p, s, op).now < until
    ensures Rejected(Final(p, s, []), op.ip, op.at)
  {}

  // ---- Logins handled one at a time ----

  datatype Verdict = Unauthorized | Ok | Other

  /** A whole login: the attempt and, unless it is rejected, what the handler's answer records. */
  datatype Call =
    | Login(ip: string, at: int, verdict: Verdict, t0: int, t1: int, t2: int, t3: int)
    | Sweep(at: int)

  function OpsOf(s: State, c: Call): seq<Op>
  {
    match c
    case Sweep(at) => [Cleanup(at)]
    case Login(ip, at, verdict, t0, t1, t2, t3) =>
      if Rejected(s, ip, at) then [Attempt(ip, at)]
      else
        [Attempt(ip, at)] +
        match verdict
        case Unauthorized => [Failure(ip, t0, t1, t2, t3)]
        case Ok => [Success(ip)]
        case Other => []
  }

  function CallOps(p: Policy, s: State, calls: seq<Call>): seq<Op>
    decreases |calls|
  {
    if calls == [] then []
    else OpsOf(s, calls[0]) + CallOps(p, Final(p, s, OpsOf(s, calls[0])), calls[1..])
  }

  lemma OneCallNoSuccess(p: Policy, s: State, c: Call, ip: string, until: int)
    requires Inv(p, s) && Run(p, s, OpsOf(s, c)) && LockedUntil(s, ip, until) && Final(p, s, OpsOf(s, c)).now < until
    ensures NoSuccess(OpsOf(s, c), ip)
  {
    if c.Login? && c.ip == ip && !Rejected(s, ip, c.at) {
      var ops := OpsOf(s, c);
      Unroll(p, s, ops[0], ops[1..]);
      assert ops == [ops[0]] + ops[1..];
      RunInv(p, Step(p, s, ops[0]), ops[1..]);
    }
  }

  /** When logins do not overlap, none gets past a lock: the handler is not reached before it runs out. */
  lemma {:induction false} LockedOutSerially(p: Policy, s: State, calls: seq<Call>, ip: string, until: int)
    requires Inv(p, s) && Run(p, s, CallOps(p, s, calls)) && LockedUntil(s, ip, until)
    requires Final(p, s, CallOps(p, s, calls)).now < until
    ensures NoSuccess(CallOps(p, s, calls), ip)
    ensures forall i | 0 <= i < |calls| && calls[i].Login? && calls[i].ip == ip ::
              Rejected(Final(p, s, CallOps(p, s, calls[..i])), ip, calls[i].at)
    decreases |calls|
  {
    hide Run, Inv, Rejected, LockedUntil, OpsOf;
    if calls != [] {
      var c, rest := calls[0], calls[1..];
      var first := OpsOf(s, c);
      var s1 := Final(p, s, first);
      RunConcat(p, s, first, CallOps(p, s1, rest));
      RunInv(p, s, first);
      RunInv(p, s1, CallOps(p, s1, rest));
      OneCallNoSuccess(p, s, c, ip, until);
      LockHolds(p, s, first, ip, until);
      LockedOutSerially(p, s1, rest, ip, until);
      forall i | 0 <= i < |calls| && calls[i].Login? && calls[i].ip == ip
        ensures Rejected(Final(p, s, CallOps(p, s, calls[..i])), ip, calls[i].at)
      {
        if i == 0 {
          FirstLogin(p, s, c, ip, until);
        } else {
          assert calls[..i][1..] == rest[..i - 1];
          RunConcat(p, s, first, CallOps(p, s1, rest[..i - 1]));
        }
      }
    }
  }

  lemma FirstLogin(p: Policy, s: State, c: Call, ip: string, until: int)
    requires Inv(p, s) && Run(p, s, OpsOf(s, c)) && LockedUntil(s, ip, until) && Final(p, s, OpsOf(s, c)).now < until
    requires c.Login? && c.ip == ip
    ensures Rejected(Final(p, s, []), ip, c.at)
  {
    var ops := OpsOf(s, c);
    assert ops == [ops[0]] + ops[1..];
    Unroll(p, s, ops[0], ops[1..]);
    RunInv(p, Step(p, s, ops[0]), ops[1..]);
  }

  // ---- How many failures always lock ----

  function FailuresOf(ops: seq<Op>, ip: string): nat
  {
    if ops == [] then 0 else FailuresOf(ops[1..], ip) + if ops[0].Failure? && ops[0].ip == ip then 1 else 0
  }

  function KeysOf(ops: seq<Op>): set<string>
  {
    set i | 0 <= i < |ops| && ops[i].Failure? :: ops[i].ip
  }

  /** Failures that a window about to end may swallow. */
  function Slack(p: Policy): nat
  {
    if p.maxFailures >= 2 then p.maxFailures - 2 else 0
  }

  function Enough(p: Policy): nat
  {
    (if p.maxFailures >= 1 then p.maxFailures else 1) + Slack(p)
  }

  /** The failure at `i` locks the peer. */
  predicate LocksAt(p: Policy, s: State, ops: seq<Op>, ip: string, i: nat)
  {
    && i < |ops| && ops[i].Failure? && ops[i].ip == ip
    && var s' := Final(p, s, ops[..i + 1]);
       ip in s'.entries && s'.entries[ip].lockedUntil == Some(ops[i].t3 + p.lock)
  }

  /** After `c` failures since `from` without a lock: either the window is still one that began earlier, or it
      was restarted once and has lost at most the slack. */
  predicate OnTheWay(p: Policy, s: State, ip: string, from: int, c: nat)
  {
    if ip !in s.entries then c <= Slack(p)
    else
      var e := s.entries[ip];
      || (e.firstTry <= from && e.count >= 1 + c && c <= Slack(p))
      || (e.firstTry >= from && e.count >= c - Slack(p) && e.count < p.maxFailures && c < Enough(p))
  }

  lemma OnTheWayStep(p: Policy, s: State, op: Op, ip: string, from: int, c: nat)
    requires Inv(p, s) && CanStep(s, op) && OnTheWay(p, s, ip, from, c)
    requires from <= s.now && Step(p, s, op).now <= from + p.window
    requires op != Success(ip) && (op.Failure? ==> !Full(s, op.ip))
    ensures var s' := Step(p, s, op);
            if op.Failure? && op.ip == ip
            then OnTheWay(p, s', ip, from, c + 1) || s'.entries[ip].lockedUntil == Some(op.t3 + p.lock)
            else OnTheWay(p, s', ip, from, c)
  {}

  /** The table holds everyone it knows and everyone yet to fail. */
  predicate HasRoom(s: State, ops: seq<Op>)
  {
    |s.entries.Keys + KeysOf(ops)| <= CAP
  }

  lemma RoomAfter(p: Policy, s: State, ops: seq<Op>, op: Op)
    requires ops != [] && HasRoom(s, ops) && (op == ops[0] || op == Unswept(ops[0]))
    ensures HasRoom(Step(p, s, op), ops[1..]) && (op.Failure? ==> !Full(s, op.ip))
  {
    hide Step, KeysOf;
    KeysAfter(p, s, op);
    Room(s.entries.Keys, Step(p, s, op).entries.Keys, ops);
  }

  lemma Room(a: set<string>, b: set<string>, ops: seq<Op>)
    requires ops != [] && |a + KeysOf(ops)| <= CAP
    requires b <= a + (if ops[0].Failure? then {ops[0].ip} else {})
    ensures ops[0].Failure? ==> ops[0].ip in a || |a| < CAP
    ensures |b + KeysOf(ops[1..])| <= CAP
  {
    Subset(b + KeysOf(ops[1..]), a + KeysOf(ops));
    if ops[0].Failure? && ops[0].ip !in a {
      Subset(a + {ops[0].ip}, a + KeysOf(ops));
    }
  }

  lemma KeysAfter(p: Policy, s: State, op: Op)
    ensures Step(p, s, op).entries.Keys <= s.entries.Keys + (if op.Failure? then {op.ip} else {})
    ensures |s.entries.Keys| == |s.entries|
  {
    hide Counted, Known, Stale;
  }

  lemma Rest(ops: seq<Op>, ip: string)
    requires ops != []
    ensures NoSuccess(ops, ip) ==> ops[0] != Success(ip) && NoSuccess(ops[1..], ip)
    ensures FailuresOf(ops, ip) == FailuresOf(ops[1..], ip) + if ops[0].Failure? && ops[0].ip == ip then 1 else 0
  {}

  lemma SlidingStep(p: Policy, s: State, ops: seq<Op>, ip: string, from: int, c: nat) returns (c': nat)
    requires Inv(p, s) && ops != [] && CanStep(s, ops[0]) && from <= s.now && Step(p, s, ops[0]).now <= from + p.window
    requires NoSuccess(ops, ip) && HasRoom(s, ops)
    requires OnTheWay(p, s, ip, from, c)
    ensures var s1 := Step(p, s, ops[0]);
            && Inv(p, s1) && from <= s1.now
            && NoSuccess(ops[1..], ip) && HasRoom(s1, ops[1..])
            && c + FailuresOf(ops, ip) == c' + FailuresOf(ops[1..], ip)
            && (OnTheWay(p, s1, ip, from, c') || LocksAt(p, s, ops, ip, 0))
  {
    hide Inv, CanStep, Step, OnTheWay, HasRoom, LocksAt, Full, NoSuccess, FailuresOf;
    var op := ops[0];
    Rest(ops, ip);
    c' := if op.Failure? && op.ip == ip then c + 1 else c;
    StepInv(p, s, op);
    RoomAfter(p, s, ops, op);
    OnTheWayStep(p, s, op, ip, from, c);
    if !OnTheWay(p, Step(p, s, op), ip, from, c') {
      LocksNow(p, s, ops, ip);
    }
  }

  lemma {:induction false} SlidingLock(p: Policy, s: State, ops: seq<Op>, ip: string, from: int, c: nat)
      returns (i: nat)
    requires Inv(p, s) && Run(p, s, ops) && from <= s.now && Final(p, s, ops).now <= from + p.window
    requires NoSuccess(ops, ip) && HasRoom(s, ops)
    requires OnTheWay(p, s, ip, from, c) && c + FailuresOf(ops, ip) >= Enough(p)
    ensures LocksAt(p, s, ops, ip, i)
    decreases |ops|
  {
    hide Inv, CanStep, Step, OnTheWay, HasRoom, LocksAt, Enough, NoSuccess;
    if ops == [] {
      NotEnough(p, s, ip, from, c);
    } else {
      var s1 := Step(p, s, ops[0]);
      StepInv(p, s, ops[0]);
      RunInv(p, s1, ops[1..]);
      var c' := SlidingStep(p, s, ops, ip, from, c);
      if LocksAt(p, s, ops, ip, 0) {
        i := 0;
      } else {
        i := SlidingLock(p, s1, ops[1..], ip, from, c');
        LocksLater(p, s, ops, ip, i);
        i := i + 1;
      }
    }
  }

  lemma LocksNow(p: Policy, s: State, ops: seq<Op>, ip: string)
    requires ops != [] && ops[0].Failure? && ops[0].ip == ip && !Full(s, ip)
    requires Step(p, s, ops[0]).entries[ip].lockedUntil == Some(ops[0].t3 + p.lock)
    ensures LocksAt(p, s, ops, ip, 0)
  {
    hide Counted, Known;
    assert ops[..1] == [ops[0]] + [];
    Unroll(p, s, ops[0], []);
  }

  lemma LocksLater(p: Policy, s: State, ops: seq<Op>, ip: string, i: nat)
    requires ops != [] && LocksAt(p, Step(p, s, ops[0]), ops[1..], ip, i)
    ensures LocksAt(p, s, ops, ip, i + 1)
  {
    hide Step;
    assert ops[..i + 2] == [ops[0]] + ops[1..][..i + 1];
    Unroll(p, s, ops[0], ops[1..][..i + 1]);
  }

  lemma NotEnough(p: Policy, s: State, ip: string, from: int, c: nat)
    requires OnTheWay(p, s, ip, from, c)
    ensures c < Enough(p)
  {}

  /** However the windows fall, 2 * maxFailures - 2 failures (one, if maxFailures is below two) within any stretch
      as long as the window, with no success between them, lock the peer. */
  lemma EnoughAlwaysLock(p: Policy, s: State, ops: seq<Op>, ip: string) returns (i: nat)
    requires Inv(p, s) && Run(p, s, ops) && Final(p, s, ops).now <= s.now + p.window
    requires NoSuccess(ops, ip) && HasRoom(s, ops)
    requires FailuresOf(ops, ip) >= Enough(p)
    ensures LocksAt(p, s, ops, ip, i)
  {
    hide Run, Final, LocksAt, HasRoom;
    i := SlidingLock(p, s, ops, ip, s.now, 0);
  }

  function Salvo(ip: string, t: int, n: nat): (ops: seq<Op>)
    ensures |ops| == n && forall i | 0 <= i < n :: ops[i] == Failure(ip, t, t, t, t)
  {
    if n == 0 then [] else [Failure(ip, t, t, t, t)] + Salvo(ip, t, n - 1)
  }

  lemma {:induction false} SalvoRuns(p: Policy, s: State, ip: string, t: int, n: nat)
    requires ip in s.entries && s.entries[ip].lockedUntil.None? && s.now <= t
    requires t - s.entries[ip].firstTry <= p.window && s.entries[ip].count + n < p.maxFailures
    ensures Run(p, s, Salvo(ip, t, n)) && FailuresOf(Salvo(ip, t, n), ip) == n
    ensures var s' := Final(p, s, Salvo(ip, t, n));
            && s'.now == (if n == 0 then s.now else t) && ip in s'.entries
            && s'.entries[ip] == Entry(s.entries[ip].count + n, s.entries[ip].firstTry, None)
    decreases n
  {
    if n > 0 {
      hide Run, Final;
      var op := Failure(ip, t, t, t, t);
      Unroll(p, s, op, Salvo(ip, t, n - 1));
      SalvoRuns(p, Step(p, s, op), ip, t, n - 1);
    } else {
      assert Salvo(ip, t, 0) == [];
    }
  }

  lemma {:induction false} FailuresConcat(a: seq<Op>, b: seq<Op>, ip: string)
    ensures FailuresOf(a + b, ip) == FailuresOf(a, ip) + FailuresOf(b, ip)
  {
    if a == [] {
      assert [] + b == b;
    } else {
      assert (a + b)[1..] == a[1..] + b;
      FailuresConcat(a[1..], b, ip);
    }
  }

  /** Simultaneous failures of an unknown peer lock it as soon as there are enough. */
  lemma FreshSalvoLocks(p: Policy, s: State, ip: string, t: int)
    requires p.maxFailures >= 1 && ip !in s.entries && |s.entries| < CAP && s.now <= t
    ensures var s' := Final(p, s, Salvo(ip, t, p.maxFailures));
            && Run(p, s, Salvo(ip, t, p.maxFailures)) && s'.now == t
            && ip in s'.entries && s'.entries[ip].lockedUntil == Some(t + p.lock)
  {
    hide Run, Final;
    var n, op := p.maxFailures - 1, Failure(ip, t, t, t, t);
    var s1 := Step(p, s, op);
    SalvoSnoc(ip, t, n);
    Unroll(p, s, op, Salvo(ip, t, n));
    if n == 0 {
      RunNothing(p, s1);
      assert Salvo(ip, t, 0) == [];
    } else {
      SalvoSnoc(ip, t, n - 1);
      SalvoRuns(p, s1, ip, t, n - 1);
      var s2 := Final(p, s1, Salvo(ip, t, n - 1));
      RunConcat(p, s1, Salvo(ip, t, n - 1), [op]);
      assert [op] == [op] + [];
      Unroll(p, s2, op, []);
      RunNothing(p, Step(p, s2, op));
    }
  }

  lemma SalvoSnoc(ip: string, t: int, n: nat)
    ensures Salvo(ip, t, n + 1) == [Failure(ip, t, t, t, t)] + Salvo(ip, t, n)
    ensures Salvo(ip, t, n + 1) == Salvo(ip, t, n) + [Failure(ip, t, t, t, t)]
  {}

  lemma RunNothing(p: Policy, s: State)
    ensures Final(p, s, []) == s && Run(p, s, [])
  {}

  /** A full table takes no note of a peer it does not know, however often that fails. */
  lemma {:induction false} FullTableForgets(p: Policy, s: State, ip: string, t: int, n: nat)
    requires Full(s, ip) && s.now <= t
    ensures Run(p, s, Salvo(ip, t, n)) && Final(p, s, Salvo(ip, t, n)).entries == s.entries
    ensures !Rejected(Final(p, s, Salvo(ip, t, n)), ip, t)
    decreases n
  {
    if n == 0 {
      RunNothing(p, s);
      assert Salvo(ip, t, 0) == [];
    } else {
      hide Run, Final;
      var op := Failure(ip, t, t, t, t);
      SalvoSnoc(ip, t, n - 1);
      Unroll(p, s, op, Salvo(ip, t, n - 1));
      FullTableForgets(p, Step(p, s, op), ip, t, n - 1);
    }
  }

  /** Logins that overlap can get past a lock, under every policy that locks at all: one already in the handler when
      the lock falls may succeed and lift it. */
  lemma InFlightSuccessUnlocks(p: Policy, ip: string, t: int)
    requires p.maxFailures >= 1 && p.lock >= 1 && t >= 0
    ensures var locking := [Attempt(ip, t)] + Salvo(ip, t, p.maxFailures);
            && Run(p, INIT, locking) && Rejected(Final(p, INIT, locking), ip, t)
            && Run(p, INIT, locking + [Success(ip)]) && !Rejected(Final(p, INIT, locking + [Success(ip)]), ip, t)
  {
    hide Run, Final;
    var salvo := Salvo(ip, t, p.maxFailures);
    var s1 := Step(p, INIT, Attempt(ip, t));
    FreshSalvoLocks(p, s1, ip, t);
    Unroll(p, INIT, Attempt(ip, t), salvo);
    var s2 := Final(p, s1, salvo);
    RunConcat(p, INIT, [Attempt(ip, t)] + salvo, [Success(ip)]);
    assert [Success(ip)] == [Success(ip)] + [];
    Unroll(p, s2, Success(ip), []);
    RunNothing(p, Step(p, s2, Success(ip)));
  }

  /** As many failures as fit at the very end of a window that began with one at time 0, and as many in the next. */
  function NearMiss(p: Policy, ip: string): (ops: seq<Op>)
    requires p.maxFailures >= 2
  {
    var n, t := p.maxFailures - 2, p.window + 1;
    Salvo(ip, p.window, n) + ([Failure(ip, t, t, t, t)] + Salvo(ip, t, n))
  }

  /** One failure fewer need not lock: 2 * maxFailures - 3 of them, all from time 1 on and in one window's length. */
  lemma OneFewerMayPass(p: Policy, ip: string)
    requires p.maxFailures >= 2 && p.window >= 1
    ensures var s1 := Step(p, INIT, Failure(ip, 0, 0, 0, 0)); var ops := NearMiss(p, ip);
            && CanStep(INIT, Failure(ip, 0, 0, 0, 0)) && s1.now == 0 && Run(p, s1.(now := 1), ops)
            && FailuresOf(ops, ip) == Enough(p) - 1
            && var s2 := Final(p, s1.(now := 1), ops);
               s2.now == 1 + p.window && ip in s2.entries && s2.entries[ip].lockedUntil.None?
  {
    hide Run, Final, FailuresOf;
    var n, w := p.maxFailures - 2, p.window;
    var s1 := Step(p, INIT, Failure(ip, 0, 0, 0, 0)).(now := 1);
    var op := Failure(ip, w + 1, w + 1, w + 1, w + 1);
    SalvoRuns(p, s1, ip, w, n);
    var s2 := Final(p, s1, Salvo(ip, w, n));
    var s3 := Step(p, s2, op);
    SalvoRuns(p, s3, ip, w + 1, n);
    Unroll(p, s2, op, Salvo(ip, w + 1, n));
    RunConcat(p, s1, Salvo(ip, w, n), [op] + Salvo(ip, w + 1, n));
    FailuresConcat(Salvo(ip, w, n), [op] + Salvo(ip, w + 1, n), ip);
    FailuresConcat([op], Salvo(ip, w + 1, n), ip);
    OneFailure(op);
  }

  lemma OneFailure(op: Op)
    requires op.Failure?
    ensures FailuresOf([op], op.ip) == 1
  {}

  // ---- Cleanup is invisible ----

  /** The same history on a limiter that never clears an entry. */
  function Unswept(op: Op): Op
  {
    match op case Cleanup(at) => Wait(at) case _ => op
  }

  function AllUnswept(ops: seq<Op>): (r: seq<Op>)
    ensures |r| == |ops| && forall i | 0 <= i < |ops| :: r[i] == Unswept(ops[i])
  {
    seq(|ops|, i requires 0 <= i < |ops| => Unswept(ops[i]))
  }

  function Answers(p: Policy, s: State, ops: seq<Op>): (r: seq<bool>)
    ensures |r| == |ops|
    decreases |ops|
  {
    if ops == [] then []
    else [ops[0].Attempt? && Rejected(s, ops[0].ip, ops[0].at)] + Answers(p, Step(p, s, ops[0]), ops[1..])
  }

  /** Locks that differ have both run out. */
  predicate SameLock(a: Option<int>, b: Option<int>, now: int)
  {
    a == b || ((a.Some? ==> a.value <= now) && (b.Some? ==> b.value <= now))
  }

  /** Neither the lock nor the count of this entry matters any more. */
  predicate Harmless(p: Policy, e: Entry, t: int)
  {
    t - e.firstTry > 2 * p.window && (e.lockedUntil.Some? ==> e.lockedUntil.value <= t)
  }

  /** `u` remembers everyone `s` does, and whoever only `u` remembers no longer matters. */
  predicate Twin(p: Policy, s: State, u: State)
  {
    && s.now == u.now
    && s.entries.Keys <= u.entries.Keys
    && (forall k <- s.entries ::
          && s.entries[k].count == u.entries[k].count && s.entries[k].firstTry == u.entries[k].firstTry
          && SameLock(s.entries[k].lockedUntil, u.entries[k].lockedUntil, s.now))
    && (forall k <- u.entries :: k !in s.entries ==> Harmless(p, u.entries[k], u.now))
  }

  /** The clock does not move while one failure is recorded. */
  predicate Prompt(ops: seq<Op>)
  {
    forall i | 0 <= i < |ops| && ops[i].Failure? :: ops[i].t0 == ops[i].t2
  }

  lemma TwinCounted(p: Policy, s: State, u: State, op: Op)
    requires op.Failure? && op.t0 == op.t2 && CanStep(s, op) && Twin(p, s, u)
    ensures var e, f := Counted(p, Known(s, op), op), Counted(p, Known(u, op), op);
            e.count == f.count && e.firstTry == f.firstTry && SameLock(e.lockedUntil, f.lockedUntil, op.t3)
  {}

  lemma TwinFailure(p: Policy, s: State, u: State, op: Op)
    requires op.Failure? && op.t0 == op.t2 && CanStep(s, op) && Inv(p, u) && Twin(p, s, u) && !Full(u, op.ip)
    ensures Twin(p, Step(p, s, op), Step(p, u, op))
  {
    hide Counted, Known;
    TwinRoom(s, u, op.ip);
    TwinCounted(p, s, u, op);
  }

  lemma TwinRoom(s: State, u: State, ip: string)
    requires s.entries.Keys <= u.entries.Keys && !Full(u, ip) && |u.entries| <= CAP
    ensures !Full(s, ip)
  {
    Subset(s.entries.Keys + {ip}, u.entries.Keys + {ip});
    if ip in u.entries {
      assert u.entries.Keys + {ip} == u.entries.Keys;
    }
  }

  lemma TwinCleanup(p: Policy, s: State, u: State, at: int)
    requires Inv(p, u) && Twin(p, s, u) && s.now <= at
    ensures Twin(p, Step(p, s, Cleanup(at)), u.(now := at))
  {
    var s' := Step(p, s, Cleanup(at));
    forall k | k in u.entries && k !in s'.entries ensures Harmless(p, u.entries[k], at) {
      if k in s.entries {
        assert Stale(p, s.entries[k], at);
      }
    }
  }

  lemma TwinOther(p: Policy, s: State, u: State, op: Op)
    requires Twin(p, s, u) && CanStep(s, op) && !op.Failure? && !op.Cleanup?
    ensures Twin(p, Step(p, s, op), Step(p, u, op))
    ensures op.Attempt? ==> (Rejected(s, op.ip, op.at) <==> Rejected(u, op.ip, op.at))
  {}

  lemma TwinStep(p: Policy, s: State, u: State, op: Op)
    requires Inv(p, u) && Twin(p, s, u) && CanStep(s, op)
    requires op.Failure? ==> op.t0 == op.t2 && !Full(u, op.ip)
    ensures CanStep(u, Unswept(op)) && Twin(p, Step(p, s, op), Step(p, u, Unswept(op)))
    ensures op.Attempt? ==> (Rejected(s, op.ip, op.at) <==> Rejected(u, op.ip, op.at))
  {
    hide Inv, Twin, Counted, Known, Full, Rejected, CanStep;
    SameClock(p, s, u, op);
    if op.Failure? {
      TwinFailure(p, s, u, op);
    } else if op.Cleanup? {
      TwinCleanup(p, s, u, op.at);
    } else {
      TwinOther(p, s, u, op);
    }
  }

  lemma SameClock(p: Policy, s: State, u: State, op: Op)
    requires Inv(p, u) && Twin(p, s, u) && CanStep(s, op)
    ensures CanStep(u, Unswept(op)) && (op.Cleanup? ==> s.now <= op.at)
  {
    hide Inv;
  }

  /** With no more failing peers than the table holds, clearing stale entries changes no answer, provided the
      clock stands still while a failure is recorded. */
  lemma {:induction false} CleanupInvisible(p: Policy, s: State, u: State, ops: seq<Op>)
    requires Inv(p, s) && Inv(p, u) && Twin(p, s, u) && Run(p, s, ops) && Prompt(ops)
    requires HasRoom(u, ops)
    ensures Run(p, u, AllUnswept(ops)) && Answers(p, s, ops) == Answers(p, u, AllUnswept(ops))
    decreases |ops|
  {
    hide Step, Inv, CanStep, Twin, HasRoom, Rejected;
    if ops != [] {
      var op, rest := ops[0], ops[1..];
      RoomAfter(p, u, ops, Unswept(op));
      TwinStep(p, s, u, op);
      StepInv(p, s, op);
      StepInv(p, u, Unswept(op));
      CleanupInvisible(p, Step(p, s, op), Step(p, u, Unswept(op)), rest);
      assert AllUnswept(ops)[1..] == AllUnswept(rest);
    }
  }

  predicate Invisible(p: Policy, ops: seq<Op>)
  {
    Run(p, INIT, AllUnswept(ops)) && Answers(p, INIT, ops) == Answers(p, INIT, AllUnswept(ops))
  }

  /** Windows do not matter when every failure locks, or when no lock lasts. */
  predicate WindowsMatter(p: Policy) { p.maxFailures >= 2 && p.lock >= 1 }

  predicate LooseTwin(s: State, u: State)
  {
    && s.now == u.now
    && s.entries.Keys <= u.entries.Keys
    && (forall k <- s.entries :: SameLock(s.entries[k].lockedUntil, u.entries[k].lockedUntil, s.now))
    && (forall k <- u.entries :: k !in s.entries ==> SameLock(None, u.entries[k].lockedUntil, s.now))
  }

  lemma LooseStep(p: Policy, s: State, u: State, op: Op)
    requires !WindowsMatter(p) && Inv(p, s) && Inv(p, u) && LooseTwin(s, u) && CanStep(s, op)
    requires op.Failure? ==> !Full(u, op.ip)
    ensures CanStep(u, Unswept(op)) && LooseTwin(Step(p, s, op), Step(p, u, Unswept(op)))
    ensures op.Attempt? ==> (Rejected(s, op.ip, op.at) <==> Rejected(u, op.ip, op.at))
  {
    hide WindowsMatter, Inv, LooseTwin, Full, Rejected, Step;
    if op.Failure? {
      LooseFailure(p, s, u, op);
    } else if op.Cleanup? {
      LooseCleanup(p, s, u, op.at);
    } else {
      LooseOther(p, s, u, op);
    }
    LooseClock(s, u);
  }

  lemma LooseClock(s: State, u: State)
    requires LooseTwin(s, u)
    ensures s.now == u.now
  {}

  lemma LooseCleanup(p: Policy, s: State, u: State, at: int)
    requires LooseTwin(s, u) && s.now <= at
    ensures LooseTwin(Step(p, s, Cleanup(at)), Step(p, u, Wait(at)))
  {
    var s' := Step(p, s, Cleanup(at));
    forall k | k in u.entries && k !in s'.entries ensures SameLock(None, u.entries[k].lockedUntil, at) {
      if k in s.entries {
        assert Expired(s.entries[k], at);
      }
    }
  }

  lemma LooseOther(p: Policy, s: State, u: State, op: Op)
    requires LooseTwin(s, u) && CanStep(s, op) && !op.Failure? && !op.Cleanup?
    ensures LooseTwin(Step(p, s, op), Step(p, u, op))
    ensures op.Attempt? ==> (Rejected(s, op.ip, op.at) <==> Rejected(u, op.ip, op.at))
  {}

  lemma LooseFailure(p: Policy, s: State, u: State, op: Op)
    requires !WindowsMatter(p) && Inv(p, s) && Inv(p, u) && LooseTwin(s, u) && CanStep(s, op)
    requires op.Failure? && !Full(u, op.ip)
    ensures LooseTwin(Step(p, s, op), Step(p, u, op))
  {
    hide Counted, Known;
    TwinRoom(s, u, op.ip);
    LooseCounted(p, s, u, op);
  }

  lemma LooseCounted(p: Policy, s: State, u: State, op: Op)
    requires !WindowsMatter(p) && Inv(p, s) && Inv(p, u) && LooseTwin(s, u) && CanStep(s, op) && op.Failure?
    ensures SameLock(Counted(p, Known(s, op), op).lockedUntil, Counted(p, Known(u, op), op).lockedUntil, op.t3)
  {}

  lemma {:induction false} LooseRun(p: Policy, s: State, u: State, ops: seq<Op>)
    requires !WindowsMatter(p) && Inv(p, s) && Inv(p, u) && LooseTwin(s, u) && Run(p, s, ops)
    requires HasRoom(u, ops)
    ensures Run(p, u, AllUnswept(ops)) && Answers(p, s, ops) == Answers(p, u, AllUnswept(ops))
    decreases |ops|
  {
    hide Step, Inv, CanStep, LooseTwin, HasRoom, Rejected, WindowsMatter;
    if ops != [] {
      var op, rest := ops[0], ops[1..];
      RoomAfter(p, u, ops, Unswept(op));
      LooseStep(p, s, u, op);
      StepInv(p, s, op);
      StepInv(p, u, Unswept(op));
      LooseRun(p, Step(p, s, op), Step(p, u, Unswept(op)), rest);
      assert AllUnswept(ops)[1..] == AllUnswept(rest);
    }
  }

  /** A peer is forgotten and fails again, the clock moving on by `delay` while that is recorded; then it fails
      maxFailures - 1 times just after the window that began at the earlier reading. */
  function Revealing(p: Policy, ip: string, delay: nat): (ops: seq<Op>)
    requires p.maxFailures >= 2
  {
    var t := 2 * p.window + 2;
    var t' := t + if delay > p.window then delay else p.window + 1;
    [Failure(ip, 0, 0, 0, 0), Cleanup(t - 1), Failure(ip, t, t, t + delay, t + delay)]
    + (Salvo(ip, t', p.maxFailures - 1) + [Attempt(ip, t')])
  }

  /** After the slow failure: the forgetful limiter restarts the window with the salvo, the other counts it in. */
  lemma SalvoLocks(p: Policy, u: State, ip: string, t': int)
    requires WindowsMatter(p) && ip in u.entries && u.now <= t'
    requires u.entries[ip].count == 1 && u.entries[ip].lockedUntil.None? && t' - u.entries[ip].firstTry <= p.window
    ensures var s' := Final(p, u, Salvo(ip, t', p.maxFailures - 1));
            Run(p, u, Salvo(ip, t', p.maxFailures - 1)) && s'.now == t' && Rejected(s', ip, t')
  {
    hide Run, Final;
    var n, op := p.maxFailures - 2, Failure(ip, t', t', t', t');
    SalvoSnoc(ip, t', n);
    SalvoRuns(p, u, ip, t', n);
    RunConcat(p, u, Salvo(ip, t', n), [op]);
    assert [op] == [op] + [];
    Unroll(p, Final(p, u, Salvo(ip, t', n)), op, []);
    RunNothing(p, Step(p, Final(p, u, Salvo(ip, t', n)), op));
  }

  lemma SalvoRestarts(p: Policy, s: State, ip: string, t': int)
    requires WindowsMatter(p) && ip in s.entries && s.now <= t'
    requires s.entries[ip].lockedUntil.None? && t' - s.entries[ip].firstTry > p.window
    ensures var s' := Final(p, s, Salvo(ip, t', p.maxFailures - 1));
            Run(p, s, Salvo(ip, t', p.maxFailures - 1)) && s'.now == t' && !Rejected(s', ip, t')
  {
    hide Run, Final;
    var n, op := p.maxFailures - 2, Failure(ip, t', t', t', t');
    SalvoSnoc(ip, t', n);
    SalvoRuns(p, Step(p, s, op), ip, t', n);
    Unroll(p, s, op, Salvo(ip, t', n));
  }

  lemma {:induction false} AnswerAt(p: Policy, s: State, ops: seq<Op>, i: nat)
    requires i < |ops| && ops[i].Attempt?
    ensures Answers(p, s, ops)[i] == Rejected(Final(p, s, ops[..i]), ops[i].ip, ops[i].at)
    decreases |ops|
  {
    hide Step, Rejected;
    if i > 0 {
      AnswerAt(p, Step(p, s, ops[0]), ops[1..], i - 1);
      assert ops[..i][1..] == ops[1..][..i - 1];
    }
  }

  lemma Three(p: Policy, a: Op, b: Op, c: Op)
    ensures var s1 := Step(p, INIT, a); var s2 := Step(p, s1, b);
            && (Run(p, INIT, [a, b, c]) <==> CanStep(INIT, a) && CanStep(s1, b) && CanStep(s2, c))
            && Final(p, INIT, [a, b, c]) == Step(p, s2, c)
  {
    hide Step, CanStep;
    var s1 := Step(p, INIT, a);
    var s2 := Step(p, s1, b);
    assert [a, b, c] == [a] + ([b] + ([c] + []));
    Unroll(p, INIT, a, [b] + ([c] + []));
    Unroll(p, s1, b, [c] + []);
    Unroll(p, s2, c, []);
    RunNothing(p, Step(p, s2, c));
  }

  /** The two limiters when the salvo begins. */
  lemma BeforeSalvo(p: Policy, ip: string, delay: nat)
    requires WindowsMatter(p) && delay >= 1
    ensures var t := 2 * p.window + 2;
            var a, c := Failure(ip, 0, 0, 0, 0), Failure(ip, t, t, t + delay, t + delay);
            var s, u := Final(p, INIT, [a, Cleanup(t - 1), c]), Final(p, INIT, [a, Wait(t - 1), c]);
            && Run(p, INIT, [a, Cleanup(t - 1), c]) && Run(p, INIT, [a, Wait(t - 1), c])
            && s.now == u.now == t + delay && ip in s.entries && ip in u.entries
            && s.entries[ip] == Entry(1, t, None) && u.entries[ip] == Entry(1, t + delay, None)
  {
    hide Run, Final;
    var t := 2 * p.window + 2;
    var a, c := Failure(ip, 0, 0, 0, 0), Failure(ip, t, t, t + delay, t + delay);
    Three(p, a, Cleanup(t - 1), c);
    Three(p, a, Wait(t - 1), c);
    var s1 := Step(p, INIT, a);
    assert s1.entries == map[ip := Entry(1, 0, None)] && StaleKeys(p, s1, t - 1) == {ip};
  }

  lemma Laid(first: seq<Op>, salvo: seq<Op>, last: Op)
    ensures var ops, n := first + (salvo + [last]), |first| + |salvo|;
            |ops| == n + 1 && ops[n] == last && ops[..n] == first + salvo
  {}

  lemma RunsTo(p: Policy, s: State, ops: seq<Op>, last: Op)
    requires last.Attempt?
    ensures Run(p, s, ops + [last]) <==> Run(p, s, ops) && CanStep(Final(p, s, ops), last)
  {
    hide Run, Final, CanStep, Step;
    RunConcat(p, s, ops, [last]);
    assert [last] == [last] + [];
    Unroll(p, Final(p, s, ops), last, []);
    RunNothing(p, Step(p, Final(p, s, ops), last));
  }

  lemma Told(p: Policy, first: seq<Op>, salvo: seq<Op>, last: Op)
    requires last.Attempt?
    ensures var ops := first + (salvo + [last]); var s := Final(p, Final(p, INIT, first), salvo);
            && (Run(p, INIT, ops) <==> Run(p, INIT, first) && Run(p, Final(p, INIT, first), salvo) && CanStep(s, last))
            && |ops| > |first| + |salvo|
            && Answers(p, INIT, ops)[|first| + |salvo|] == Rejected(s, last.ip, last.at)
  {
    hide Run, Final, Answers, Rejected, CanStep;
    Laid(first, salvo, last);
    RunConcat(p, INIT, first, salvo + [last]);
    RunsTo(p, Final(p, INIT, first), salvo, last);
    AnswerAt(p, INIT, first + (salvo + [last]), |first| + |salvo|);
    RunConcat(p, INIT, first, salvo);
  }

  /** Any delay shows: the window of a forgotten peer begins when its failure starts to be recorded, that of a
      remembered one only once its age has been measured. */
  lemma DelayShowsCleanup(p: Policy, ip: string, delay: nat)
    requires WindowsMatter(p) && delay >= 1
    ensures Run(p, INIT, Revealing(p, ip, delay)) && !Invisible(p, Revealing(p, ip, delay))
  {
    hide Run, Final, Answers, Rejected, AllUnswept;
    var t := 2 * p.window + 2;
    var t' := t + if delay > p.window then delay else p.window + 1;
    var a, c, last := Failure(ip, 0, 0, 0, 0), Failure(ip, t, t, t + delay, t + delay), Attempt(ip, t');
    var salvo := Salvo(ip, t', p.maxFailures - 1);
    BeforeSalvo(p, ip, delay);
    SalvoRestarts(p, Final(p, INIT, [a, Cleanup(t - 1), c]), ip, t');
    SalvoLocks(p, Final(p, INIT, [a, Wait(t - 1), c]), ip, t');
    Told(p, [a, Cleanup(t - 1), c], salvo, last);
    Told(p, [a, Wait(t - 1), c], salvo, last);
    UnsweptRevealing(p, ip, delay);
  }

  lemma UnsweptRevealing(p: Policy, ip: string, delay: nat)
    requires WindowsMatter(p)
    ensures var t := 2 * p.window + 2;
            var t' := t + if delay > p.window then delay else p.window + 1;
            AllUnswept(Revealing(p, ip, delay)) ==
            [Failure(ip, 0, 0, 0, 0), Wait(t - 1), Failure(ip, t, t, t + delay, t + delay)]
            + (Salvo(ip, t', p.maxFailures - 1) + [Attempt(ip, t')])
  {}

  lemma RevealingKeys(p: Policy, ip: string, delay: nat)
    requires p.maxFailures >= 2
    ensures |KeysOf(Revealing(p, ip, delay))| <= CAP
  {
    Subset(KeysOf(Revealing(p, ip, delay)), {ip});
  }

  /** Cleanup is invisible whatever the clock does exactly for the policies that do not depend on windows. */
  lemma AlwaysInvisibleIff(p: Policy)
    ensures !WindowsMatter(p) <==> forall ops | Run(p, INIT, ops) && |KeysOf(ops)| <= CAP :: Invisible(p, ops)
  {
    hide Run, Answers, KeysOf, AllUnswept, Revealing;
    if WindowsMatter(p) {
      DelayShowsCleanup(p, "", 1);
      RevealingKeys(p, "", 1);
    } else {
      forall ops | Run(p, INIT, ops) && |KeysOf(ops)| <= CAP ensures Invisible(p, ops) {
        assert {} + KeysOf(ops) == KeysOf(ops);
        LooseRun(p, INIT, INIT, ops);
      }
    }
  }

  /** With a clock that stands still while a failure is recorded, cleanup is always invisible. */
  lemma PromptInvisible(p: Policy, ops: seq<Op>)
    requires Run(p, INIT, ops) && |KeysOf(ops)| <= CAP && Prompt(ops)
    ensures Invisible(p, ops)
  {
    hide Run, Answers, KeysOf, AllUnswept;
    assert {} + KeysOf(ops) == KeysOf(ops);
    CleanupInvisible(p, INIT, INIT, ops);
  }
}
